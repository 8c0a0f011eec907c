/** Collection of the files and targets of a build, and resolution of the targets nobody has
    provided yet. The exceptions that end resolution early (abort = True) are not modelled. */
module TaskDataModel {
  import opened Exploration
  import opened FailureBound
  import opened FailurePropagation
  import opened RecipeCache
  import opened Sequences

  datatype Outcome = Added | NoProvider | MultipleProviders

  /** What asking for a build target comes to; `listed` says that it has providers already. */
  ghost function BuildOutcome(cache: DataCache, item: Name, listed: bool, failed: set<Fn>): Outcome {
    if cache.ignored(item) then Added
    else if item !in cache.providers then NoProvider
    else if listed || HasLive(cache.providers[item], failed) then Added
    else NoProvider
  }

  /** The same for a run-time target, where more than one preferred provider is an error. */
  ghost function RunOutcome(cache: DataCache, item: Name, listed: bool, failed: set<Fn>): Outcome {
    if cache.ignored(item) || listed then Added
    else if item !in cache.rproviders || !HasLive(cache.rproviders[item].0, failed) then NoProvider
    else if cache.rproviders[item].1 > 1 then MultipleProviders
    else Added
  }

  ghost predicate HasLive(candidates: seq<Fn>, failed: set<Fn>) {
    exists f :: f in candidates && f !in failed
  }

  lemma LiveLeft(candidates: seq<Fn>, failed: set<Fn>)
    ensures HasLive(candidates, failed) <==> Without(candidates, failed) != []
  {
    var left := Without(candidates, failed);
    if left != [] {
      assert left[0] in left;
    }
  }

  /** Who needs what: package dependencies and inter-task dependencies, build-time and run-time. */
  ghost function Dependencies(depIds: map<Fn, seq<Name>>, rdepIds: map<Fn, seq<Name>>,
                              entries: map<(Fn, Task), TaskEntry>): Edges
  {
    (set f, n | f in depIds && n in depIds[f] :: (f, Build(n)))
    + (set f, n | f in rdepIds && n in rdepIds[f] :: (f, Run(n)))
    + (set tid, n | tid in entries && n in NamesOf(entries[tid].idepends) :: (tid.0, Build(n)))
    + (set tid, n | tid in entries && n in NamesOf(entries[tid].irdepends) :: (tid.0, Run(n)))
  }

  lemma DependenciesMeaning(depIds: map<Fn, seq<Name>>, rdepIds: map<Fn, seq<Name>>,
                            entries: map<(Fn, Task), TaskEntry>, f: Fn, n: Name)
    ensures (f, Build(n)) in Dependencies(depIds, rdepIds, entries) <==>
              (f in depIds && n in depIds[f]) || (exists task :: NeedsForBuilding(entries, (f, task), n))
    ensures (f, Run(n)) in Dependencies(depIds, rdepIds, entries) <==>
              (f in rdepIds && n in rdepIds[f]) || (exists task :: NeedsForRunning(entries, (f, task), n))
  {
    var g := Dependencies(depIds, rdepIds, entries);
    var c := (set tid, n | tid in entries && n in NamesOf(entries[tid].idepends) :: (tid.0, Build(n)));
    var d := (set tid, n | tid in entries && n in NamesOf(entries[tid].irdepends) :: (tid.0, Run(n)));
    if (f, Build(n)) in c {
      var tid :| tid in entries && n in NamesOf(entries[tid].idepends) && tid.0 == f;
      assert NeedsForBuilding(entries, (f, tid.1), n);
    }
    if task :| NeedsForBuilding(entries, (f, task), n) {
      assert ((f, task).0, Build(n)) in c;
    }
    if (f, Run(n)) in d {
      var tid :| tid in entries && n in NamesOf(entries[tid].irdepends) && tid.0 == f;
      assert NeedsForRunning(entries, (f, tid.1), n);
    }
    if task :| NeedsForRunning(entries, (f, task), n) {
      assert ((f, task).0, Run(n)) in d;
    }
  }

  ghost predicate NeedsForBuilding(entries: map<(Fn, Task), TaskEntry>, tid: (Fn, Task), n: Name) {
    tid in entries && n in NamesOf(entries[tid].idepends)
  }

  ghost predicate NeedsForRunning(entries: map<(Fn, Task), TaskEntry>, tid: (Fn, Task), n: Name) {
    tid in entries && n in NamesOf(entries[tid].irdepends)
  }

  lemma CombinedUpdate(build: map<Name, seq<Fn>>, run: map<Name, seq<Fn>>, n: Name, s: seq<Fn>)
    ensures Combined(build[n := s], run) == Combined(build, run)[Build(n) := s]
    ensures Combined(build, run[n := s]) == Combined(build, run)[Run(n) := s]
  {
    hide Combined;
    SameMap(Combined(build[n := s], run), Combined(build, run)[Build(n) := s]);
    SameMap(Combined(build, run[n := s]), Combined(build, run)[Run(n) := s]);
  }

  lemma SameMap(m: map<Target, seq<Fn>>, m': map<Target, seq<Fn>>)
    requires forall n :: Build(n) in m <==> Build(n) in m'
    requires forall n :: Run(n) in m <==> Run(n) in m'
    requires forall n :: Build(n) in m ==> m[Build(n)] == m'[Build(n)]
    requires forall n :: Run(n) in m ==> m[Run(n)] == m'[Run(n)]
    ensures m == m'
  {
    forall t ensures (t in m <==> t in m') && (t in m ==> m[t] == m'[t]) {
      match t {
        case Build(n) =>
        case Run(n) =>
      }
    }
  }

  ghost function FailedTargets(deps: seq<Name>, rdeps: seq<Name>): (s: set<Target>)
    ensures forall n :: Build(n) in s <==> n in deps
    ensures forall n :: Run(n) in s <==> n in rdeps
  {
    (set n | n in deps :: Build(n)) + (set n | n in rdeps :: Run(n))
  }

  lemma FailedTargetsAppend(deps: seq<Name>, rdeps: seq<Name>, n: Name)
    ensures FailedTargets(deps + [n], rdeps) == FailedTargets(deps, rdeps) + {Build(n)}
    ensures FailedTargets(deps, rdeps + [n]) == FailedTargets(deps, rdeps) + {Run(n)}
  {
    hide FailedTargets;
    SameTargets(FailedTargets(deps + [n], rdeps), FailedTargets(deps, rdeps) + {Build(n)});
    SameTargets(FailedTargets(deps, rdeps + [n]), FailedTargets(deps, rdeps) + {Run(n)});
  }

  lemma SameTargets(s: set<Target>, s': set<Target>)
    requires forall n :: Build(n) in s <==> Build(n) in s'
    requires forall n :: Run(n) in s <==> Run(n) in s'
    ensures s == s'
  {
    forall t ensures t in s <==> t in s' {
      match t {
        case Build(n) =>
        case Run(n) =>
      }
    }
  }

  ghost function Targets(build: set<Name>, run: set<Name>): (s: set<Target>)
    ensures forall n :: Build(n) in s <==> n in build
    ensures forall n :: Run(n) in s <==> n in run
  {
    (set n | n in build :: Build(n)) + (set n | n in run :: Run(n))
  }

  lemma TargetsShrink(build: set<Name>, run: set<Name>, n: Name)
    ensures Targets(build - {n}, run) == Targets(build, run) - {Build(n)}
    ensures Targets(build, run - {n}) == Targets(build, run) - {Run(n)}
  {
    hide Targets;
    SameTargets(Targets(build - {n}, run), Targets(build, run) - {Build(n)});
    SameTargets(Targets(build, run - {n}), Targets(build, run) - {Run(n)});
  }

  ghost predicate AllDistinct(m: map<Target, seq<Fn>>) {
    forall t :: t in m ==> NoDuplicates(m[t])
  }

  class TaskData {
    const allowIncomplete: bool
    var buildTargets: map<Name, seq<Fn>>
    var runTargets: map<Name, seq<Fn>>
    var seenFns: seq<Fn>
    var taskEntries: map<(Fn, Task), TaskEntry>
    var depIds: map<Fn, seq<Name>>
    var rdepIds: map<Fn, seq<Name>>
    var failedDeps: seq<Name>
    var failedRdeps: seq<Name>
    var failedFns: seq<Fn>

    constructor (allowIncomplete: bool)
      ensures this.allowIncomplete == allowIncomplete
      ensures buildTargets == map[] && runTargets == map[] && seenFns == []
      ensures taskEntries == map[] && depIds == map[] && rdepIds == map[]
      ensures failedDeps == [] && failedRdeps == [] && failedFns == []
      ensures forall cache, roots :: Consistent(cache, roots)
    {
      hide Sound, TablesRecord, Exact, Combined, FailedTargets, SetOf, DataCache.Candidates, Bounded, Explored;
      this.allowIncomplete := allowIncomplete;
      buildTargets, runTargets, seenFns := map[], map[], [];
      taskEntries, depIds, rdepIds := map[], map[], map[];
      failedDeps, failedRdeps, failedFns := [], [], [];
      new;
      forall cache, roots ensures Consistent(cache, roots) {
        NothingKnown(cache, roots);
      }
    }

    ghost function Needs(): Edges
      reads `depIds, `rdepIds, `taskEntries
    {
      Dependencies(depIds, rdepIds, taskEntries)
    }

    ghost function Lists(): map<Target, seq<Fn>>
      reads `buildTargets, `runTargets
    {
      Combined(buildTargets, runTargets)
    }

    ghost function Gone(): set<Target>
      reads `failedDeps, `failedRdeps
    {
      FailedTargets(failedDeps, failedRdeps)
    }

    ghost function View(): State
      reads this
    {
      State(Lists(), SetOf(failedFns), Gone())
    }

    /** Files in the dependency tables that have the target in their list. */
    method GetDependees(target: Name) returns (dependees: seq<Fn>)
      ensures forall f :: f in dependees <==> f in depIds && target in depIds[f]
    {
      dependees := [];
      var todo := depIds.Keys;
      while todo != {}
        invariant todo <= depIds.Keys
        invariant forall f :: f in dependees <==> f in depIds && f !in todo && target in depIds[f]
      {
        var f :| f in todo;
        todo := todo - {f};
        if target in depIds[f] {
          dependees := dependees + [f];
        }
      }
    }

    method GetRdependees(target: Name) returns (dependees: seq<Fn>)
      ensures forall f :: f in dependees <==> f in rdepIds && target in rdepIds[f]
    {
      dependees := [];
      var todo := rdepIds.Keys;
      while todo != {}
        invariant todo <= rdepIds.Keys
        invariant forall f :: f in dependees <==> f in rdepIds && f !in todo && target in rdepIds[f]
      {
        var f :| f in todo;
        todo := todo - {f};
        if target in rdepIds[f] {
          dependees := dependees + [f];
        }
      }
    }

    /** Marks a file as unbuildable, takes it out of every provider list and propagates. The
        dictionaries are walked in arbitrary order. */
    method FailFn(fn: Fn, ghost universe: set<Fn>)
      requires AllDistinct(Lists())
      requires fn in universe && forall e :: e in Needs() ==> e.0 in universe
      modifies `buildTargets, `runTargets, `failedFns, `failedDeps, `failedRdeps
      decreases universe - SetOf(failedFns), 0, 0
      ensures AllDistinct(Lists())
      ensures Spread(Needs(), old(View()), View(), {fn})
      ensures buildTargets.Keys == old(buildTargets.Keys) && runTargets.Keys == old(runTargets.Keys)
    {
      hide Failing, Spread, Combined, Dependencies, FailedTargets, AllDistinct, Targets;
      if fn in failedFns {
        SpreadAlready(Needs(), View(), fn);
        return;
      }
      ghost var g, s0 := Needs(), View();
      failedFns := failedFns + [fn];
      assert View() == s0.(failed := s0.failed + {fn});
      FailingStart(g, s0, fn);
      SameTargets(s0.lists.Keys, Targets(buildTargets.Keys, runTargets.Keys));
      LoseProviders(fn, universe, s0);
      LoseRuntimeProviders(fn, universe, s0);
      SameTargets(Targets({}, {}), {});
      FailingEnd(g, s0, View(), fn);
    }

    /** The first loop of FailFn. */
    method LoseProviders(fn: Fn, ghost universe: set<Fn>, ghost s0: State)
      requires AllDistinct(Lists())
      requires forall e :: e in Needs() ==> e.0 in universe
      requires Failing(Needs(), s0, View(), fn, Targets(buildTargets.Keys, runTargets.Keys))
      modifies `buildTargets, `runTargets, `failedFns, `failedDeps, `failedRdeps
      decreases universe - SetOf(failedFns), 3, 0
      ensures AllDistinct(Lists())
      ensures buildTargets.Keys == old(buildTargets.Keys) && runTargets.Keys == old(runTargets.Keys)
      ensures old(SetOf(failedFns)) <= SetOf(failedFns)
      ensures Failing(Needs(), s0, View(), fn, Targets({}, runTargets.Keys))
    {
      hide Failing, Spread, Combined, Dependencies, FailedTargets, AllDistinct, Targets;
      ghost var g := Needs();
      var targets := buildTargets.Keys;
      while targets != {}
        invariant Failing(g, s0, View(), fn, Targets(targets, runTargets.Keys))
        invariant AllDistinct(Lists()) && Needs() == g
        invariant targets <= buildTargets.Keys
        invariant buildTargets.Keys == old(buildTargets.Keys) && runTargets.Keys == old(runTargets.Keys)
        invariant old(SetOf(failedFns)) <= SetOf(failedFns)
        decreases targets
      {
        var target :| target in targets;
        TargetsShrink(targets, runTargets.Keys, target);
        LoseProvider(target, fn, universe, s0, Targets(targets, runTargets.Keys));
        targets := targets - {target};
      }
    }

    /** The second loop of FailFn. */
    method LoseRuntimeProviders(fn: Fn, ghost universe: set<Fn>, ghost s0: State)
      requires AllDistinct(Lists())
      requires forall e :: e in Needs() ==> e.0 in universe
      requires Failing(Needs(), s0, View(), fn, Targets({}, runTargets.Keys))
      modifies `buildTargets, `runTargets, `failedFns, `failedDeps, `failedRdeps
      decreases universe - SetOf(failedFns), 3, 0
      ensures AllDistinct(Lists())
      ensures buildTargets.Keys == old(buildTargets.Keys) && runTargets.Keys == old(runTargets.Keys)
      ensures Failing(Needs(), s0, View(), fn, Targets({}, {}))
    {
      hide Failing, Spread, Combined, Dependencies, FailedTargets, AllDistinct, Targets;
      ghost var g := Needs();
      var targets := runTargets.Keys;
      while targets != {}
        invariant Failing(g, s0, View(), fn, Targets({}, targets))
        invariant AllDistinct(Lists()) && Needs() == g
        invariant targets <= runTargets.Keys
        invariant buildTargets.Keys == old(buildTargets.Keys) && runTargets.Keys == old(runTargets.Keys)
        invariant old(SetOf(failedFns)) <= SetOf(failedFns)
        decreases targets
      {
        var target :| target in targets;
        TargetsShrink({}, targets, target);
        LoseRuntimeProvider(target, fn, universe, s0, Targets({}, targets));
        targets := targets - {target};
      }
    }

    /** One step of the first loop of FailFn: the target loses fn, and fails if fn was its last provider. */
    method LoseProvider(target: Name, fn: Fn, ghost universe: set<Fn>, ghost s0: State, ghost todo: set<Target>)
      requires AllDistinct(Lists())
      requires forall e :: e in Needs() ==> e.0 in universe
      requires target in buildTargets && Build(target) in todo
      requires Failing(Needs(), s0, View(), fn, todo)
      modifies `buildTargets, `runTargets, `failedFns, `failedDeps, `failedRdeps
      decreases universe - SetOf(failedFns), 2, 0
      ensures AllDistinct(Lists())
      ensures buildTargets.Keys == old(buildTargets.Keys) && runTargets.Keys == old(runTargets.Keys)
      ensures old(View()).failed <= View().failed
      ensures Failing(Needs(), s0, View(), fn, todo - {Build(target)})
    {
      hide Failing, Spread, Combined, Dependencies, FailedTargets, AllDistinct, Without;
      ghost var g, s := Needs(), View();
      FailingKeys(g, s0, s, fn, todo);
      if fn in buildTargets[target] {
        RemoveProvider(target, fn);
        if |buildTargets[target]| == 0 {
          ghost var dependees := set e | e in g && e.1 == Build(target) :: e.0;
          RemoveBuildTarget(target, universe);
          SpreadGrows(g, Drop(s, Build(target)), View(), dependees);
          FailingEmpty(g, s0, s, fn, todo, Build(target), View(), dependees);
        } else {
          FailingRemove(g, s0, s, fn, todo, Build(target), buildTargets[target]);
        }
      } else {
        FailingSkip(g, s0, s, fn, todo, Build(target));
      }
    }

    method LoseRuntimeProvider(target: Name, fn: Fn, ghost universe: set<Fn>, ghost s0: State, ghost todo: set<Target>)
      requires AllDistinct(Lists())
      requires forall e :: e in Needs() ==> e.0 in universe
      requires target in runTargets && Run(target) in todo
      requires Failing(Needs(), s0, View(), fn, todo)
      modifies `buildTargets, `runTargets, `failedFns, `failedDeps, `failedRdeps
      decreases universe - SetOf(failedFns), 2, 0
      ensures AllDistinct(Lists())
      ensures buildTargets.Keys == old(buildTargets.Keys) && runTargets.Keys == old(runTargets.Keys)
      ensures old(View()).failed <= View().failed
      ensures Failing(Needs(), s0, View(), fn, todo - {Run(target)})
    {
      hide Failing, Spread, Combined, Dependencies, FailedTargets, AllDistinct, Without;
      ghost var g, s := Needs(), View();
      FailingKeys(g, s0, s, fn, todo);
      if fn in runTargets[target] {
        RemoveRuntimeProvider(target, fn);
        if |runTargets[target]| == 0 {
          ghost var dependees := set e | e in g && e.1 == Run(target) :: e.0;
          RemoveRunTarget(target, universe);
          SpreadGrows(g, Drop(s, Run(target)), View(), dependees);
          FailingEmpty(g, s0, s, fn, todo, Run(target), View(), dependees);
        } else {
          FailingRemove(g, s0, s, fn, todo, Run(target), runTargets[target]);
        }
      } else {
        FailingSkip(g, s0, s, fn, todo, Run(target));
      }
    }

    /** list.remove on one provider list. */
    method RemoveProvider(target: Name, fn: Fn)
      requires target in buildTargets && AllDistinct(Lists())
      modifies `buildTargets
      ensures buildTargets == old(buildTargets)[target := Without(old(buildTargets)[target], {fn})]
      ensures Lists() == old(Lists())[Build(target) := buildTargets[target]]
      ensures AllDistinct(Lists())
    {
      hide Combined;
      var rest := RemoveFirst(buildTargets[target], fn);
      assert NoDuplicates(Lists()[Build(target)]);
      RemoveFirstIsWithout(buildTargets[target], fn);
      WithoutKeepsNoDuplicates(buildTargets[target], {fn});
      CombinedUpdate(buildTargets, runTargets, target, rest);
      buildTargets := buildTargets[target := rest];
    }

    method RemoveRuntimeProvider(target: Name, fn: Fn)
      requires target in runTargets && AllDistinct(Lists())
      modifies `runTargets
      ensures runTargets == old(runTargets)[target := Without(old(runTargets)[target], {fn})]
      ensures Lists() == old(Lists())[Run(target) := runTargets[target]]
      ensures AllDistinct(Lists())
    {
      hide Combined;
      var rest := RemoveFirst(runTargets[target], fn);
      assert NoDuplicates(Lists()[Run(target)]);
      RemoveFirstIsWithout(runTargets[target], fn);
      WithoutKeepsNoDuplicates(runTargets[target], {fn});
      CombinedUpdate(buildTargets, runTargets, target, rest);
      runTargets := runTargets[target := rest];
    }

    /** Records a build target as unbuildable and fails every file that needs it. */
    method RemoveBuildTarget(target: Name, ghost universe: set<Fn>)
      requires AllDistinct(Lists())
      requires forall e :: e in Needs() ==> e.0 in universe
      modifies `buildTargets, `runTargets, `failedFns, `failedDeps, `failedRdeps
      decreases universe - SetOf(failedFns), 1, 1
      ensures AllDistinct(Lists())
      ensures Spread(Needs(), old(View()).(gone := old(View()).gone + {Build(target)}), View(),
                     set e | e in Needs() && e.1 == Build(target) :: e.0)
      ensures buildTargets.Keys == old(buildTargets.Keys) && runTargets.Keys == old(runTargets.Keys)
    {
      hide Spread, Combined, Dependencies, FailedTargets, AllDistinct;
      FailedTargetsAppend(failedDeps, failedRdeps, target);
      failedDeps := failedDeps + [target];
      ghost var g, s0 := Needs(), View();
      assert s0 == old(View()).(gone := old(View()).gone + {Build(target)});
      var dependees := GetDependees(target);
      ghost var done: set<Fn> := {};
      SpreadNothing(g, s0);
      for i := 0 to |dependees|
        invariant AllDistinct(Lists()) && Needs() == g
        invariant done == SetOf(dependees[..i])
        invariant old(SetOf(failedFns)) <= SetOf(failedFns)
        invariant Spread(g, s0, View(), done)
        invariant buildTargets.Keys == old(buildTargets.Keys) && runTargets.Keys == old(runTargets.Keys)
      {
        ghost var s1 := View();
        assert dependees[i] in dependees;
        DependenciesMeaning(depIds, rdepIds, taskEntries, dependees[i], target);
        FailFn(dependees[i], universe);
        SpreadGrows(g, s1, View(), {dependees[i]});
        SpreadTransitive(g, s0, s1, View(), done, {dependees[i]});
        done := done + {dependees[i]};
        assert dependees[..i + 1] == dependees[..i] + [dependees[i]];
      }
      assert dependees[..|dependees|] == dependees;
      forall f | f in done ensures (f, Build(target)) in g {
        DependenciesMeaning(depIds, rdepIds, taskEntries, f, target);
      }
      done := FailBuildTaskOwners(target, universe, s0, done);
    }

    /** Fails every file with a task that names the target in its inter-task dependencies. */
    method FailBuildTaskOwners(target: Name, ghost universe: set<Fn>, ghost s0: State, ghost before: set<Fn>)
      returns (ghost done: set<Fn>)
      requires AllDistinct(Lists())
      requires forall e :: e in Needs() ==> e.0 in universe
      requires Spread(Needs(), s0, View(), before)
      requires forall f :: f in before ==> (f, Build(target)) in Needs()
      requires forall f :: f in depIds && target in depIds[f] ==> f in before
      modifies `buildTargets, `runTargets, `failedFns, `failedDeps, `failedRdeps
      decreases universe - SetOf(failedFns), 1, 0
      ensures AllDistinct(Lists())
      ensures buildTargets.Keys == old(buildTargets.Keys) && runTargets.Keys == old(runTargets.Keys)
      ensures done == set e | e in Needs() && e.1 == Build(target) :: e.0
      ensures Spread(Needs(), s0, View(), done)
    {
      hide Spread, Combined, Dependencies, FailedTargets, AllDistinct;
      ghost var g := Needs();
      done := before;
      var tids := taskEntries.Keys;
      while tids != {}
        invariant AllDistinct(Lists()) && Needs() == g
        invariant buildTargets.Keys == old(buildTargets.Keys) && runTargets.Keys == old(runTargets.Keys)
        invariant tids <= taskEntries.Keys
        invariant before <= done && Spread(g, s0, View(), done)
        invariant old(SetOf(failedFns)) <= SetOf(failedFns)
        invariant forall f :: f in done ==> (f, Build(target)) in g
        invariant forall tid :: tid !in tids && NeedsForBuilding(taskEntries, tid, target) ==> tid.0 in done
        decreases tids
      {
        var tid :| tid in tids;
        assert tid == (tid.0, tid.1);
        DependenciesMeaning(depIds, rdepIds, taskEntries, tid.0, target);
        done := FailBuildTaskOwner(tid, target, universe, s0, done);
        tids := tids - {tid};
      }
      forall f | (f, Build(target)) in g ensures f in done {
        DependenciesMeaning(depIds, rdepIds, taskEntries, f, target);
      }
      assert done == set e | e in g && e.1 == Build(target) :: e.0;
    }

    /** The inner loop of the walk over tasks. */
    method FailBuildTaskOwner(tid: (Fn, Task), target: Name, ghost universe: set<Fn>, ghost s0: State, ghost before: set<Fn>)
      returns (ghost done: set<Fn>)
      requires AllDistinct(Lists())
      requires forall e :: e in Needs() ==> e.0 in universe
      requires Spread(Needs(), s0, View(), before)
      requires tid in taskEntries
      modifies `buildTargets, `runTargets, `failedFns, `failedDeps, `failedRdeps
      decreases universe - SetOf(failedFns), 0, 1
      ensures AllDistinct(Lists())
      ensures buildTargets.Keys == old(buildTargets.Keys) && runTargets.Keys == old(runTargets.Keys)
      ensures old(SetOf(failedFns)) <= SetOf(failedFns)
      ensures done == if NeedsForBuilding(taskEntries, tid, target) then before + {tid.0} else before
      ensures Spread(Needs(), s0, View(), done)
    {
      hide Spread, Combined, Dependencies, FailedTargets, AllDistinct;
      ghost var g := Needs();
      done := before;
      var idepends := taskEntries[tid].idepends;
      for i := 0 to |idepends|
        invariant AllDistinct(Lists()) && Needs() == g
        invariant buildTargets.Keys == old(buildTargets.Keys) && runTargets.Keys == old(runTargets.Keys)
        invariant Spread(g, s0, View(), done)
        invariant old(SetOf(failedFns)) <= SetOf(failedFns)
        invariant done == if exists k :: 0 <= k < i && idepends[k].0 == target then before + {tid.0} else before
      {
        assert idepends[i] in idepends;
        if idepends[i].0 == target {
          ghost var s1 := View();
          assert tid == (tid.0, tid.1) && NeedsForBuilding(taskEntries, tid, target);
          DependenciesMeaning(depIds, rdepIds, taskEntries, tid.0, target);
          FailFn(tid.0, universe);
          SpreadGrows(g, s1, View(), {tid.0});
          SpreadTransitive(g, s0, s1, View(), done, {tid.0});
          done := done + {tid.0};
        }
      }
    }

    method RemoveRunTarget(target: Name, ghost universe: set<Fn>)
      requires AllDistinct(Lists())
      requires forall e :: e in Needs() ==> e.0 in universe
      modifies `buildTargets, `runTargets, `failedFns, `failedDeps, `failedRdeps
      decreases universe - SetOf(failedFns), 1, 1
      ensures AllDistinct(Lists())
      ensures Spread(Needs(), old(View()).(gone := old(View()).gone + {Run(target)}), View(),
                     set e | e in Needs() && e.1 == Run(target) :: e.0)
      ensures buildTargets.Keys == old(buildTargets.Keys) && runTargets.Keys == old(runTargets.Keys)
    {
      hide Spread, Combined, Dependencies, FailedTargets, AllDistinct;
      FailedTargetsAppend(failedDeps, failedRdeps, target);
      failedRdeps := failedRdeps + [target];
      ghost var g, s0 := Needs(), View();
      assert s0 == old(View()).(gone := old(View()).gone + {Run(target)});
      var dependees := GetRdependees(target);
      ghost var done: set<Fn> := {};
      SpreadNothing(g, s0);
      for i := 0 to |dependees|
        invariant AllDistinct(Lists()) && Needs() == g
        invariant done == SetOf(dependees[..i])
        invariant old(SetOf(failedFns)) <= SetOf(failedFns)
        invariant Spread(g, s0, View(), done)
        invariant buildTargets.Keys == old(buildTargets.Keys) && runTargets.Keys == old(runTargets.Keys)
      {
        ghost var s1 := View();
        assert dependees[i] in dependees;
        DependenciesMeaning(depIds, rdepIds, taskEntries, dependees[i], target);
        FailFn(dependees[i], universe);
        SpreadGrows(g, s1, View(), {dependees[i]});
        SpreadTransitive(g, s0, s1, View(), done, {dependees[i]});
        done := done + {dependees[i]};
        assert dependees[..i + 1] == dependees[..i] + [dependees[i]];
      }
      assert dependees[..|dependees|] == dependees;
      forall f | f in done ensures (f, Run(target)) in g {
        DependenciesMeaning(depIds, rdepIds, taskEntries, f, target);
      }
      done := FailRunTaskOwners(target, universe, s0, done);
    }

    /** Fails every file with a task that names the target in its inter-task dependencies. */
    method FailRunTaskOwners(target: Name, ghost universe: set<Fn>, ghost s0: State, ghost before: set<Fn>)
      returns (ghost done: set<Fn>)
      requires AllDistinct(Lists())
      requires forall e :: e in Needs() ==> e.0 in universe
      requires Spread(Needs(), s0, View(), before)
      requires forall f :: f in before ==> (f, Run(target)) in Needs()
      requires forall f :: f in rdepIds && target in rdepIds[f] ==> f in before
      modifies `buildTargets, `runTargets, `failedFns, `failedDeps, `failedRdeps
      decreases universe - SetOf(failedFns), 1, 0
      ensures AllDistinct(Lists())
      ensures buildTargets.Keys == old(buildTargets.Keys) && runTargets.Keys == old(runTargets.Keys)
      ensures done == set e | e in Needs() && e.1 == Run(target) :: e.0
      ensures Spread(Needs(), s0, View(), done)
    {
      hide Spread, Combined, Dependencies, FailedTargets, AllDistinct;
      ghost var g := Needs();
      done := before;
      var tids := taskEntries.Keys;
      while tids != {}
        invariant AllDistinct(Lists()) && Needs() == g
        invariant buildTargets.Keys == old(buildTargets.Keys) && runTargets.Keys == old(runTargets.Keys)
        invariant tids <= taskEntries.Keys
        invariant before <= done && Spread(g, s0, View(), done)
        invariant old(SetOf(failedFns)) <= SetOf(failedFns)
        invariant forall f :: f in done ==> (f, Run(target)) in g
        invariant forall tid :: tid !in tids && NeedsForRunning(taskEntries, tid, target) ==> tid.0 in done
        decreases tids
      {
        var tid :| tid in tids;
        assert tid == (tid.0, tid.1);
        DependenciesMeaning(depIds, rdepIds, taskEntries, tid.0, target);
        done := FailRunTaskOwner(tid, target, universe, s0, done);
        tids := tids - {tid};
      }
      forall f | (f, Run(target)) in g ensures f in done {
        DependenciesMeaning(depIds, rdepIds, taskEntries, f, target);
      }
      assert done == set e | e in g && e.1 == Run(target) :: e.0;
    }

    /** The inner loop of the walk over tasks. */
    method FailRunTaskOwner(tid: (Fn, Task), target: Name, ghost universe: set<Fn>, ghost s0: State, ghost before: set<Fn>)
      returns (ghost done: set<Fn>)
      requires AllDistinct(Lists())
      requires forall e :: e in Needs() ==> e.0 in universe
      requires Spread(Needs(), s0, View(), before)
      requires tid in taskEntries
      modifies `buildTargets, `runTargets, `failedFns, `failedDeps, `failedRdeps
      decreases universe - SetOf(failedFns), 0, 1
      ensures AllDistinct(Lists())
      ensures buildTargets.Keys == old(buildTargets.Keys) && runTargets.Keys == old(runTargets.Keys)
      ensures old(SetOf(failedFns)) <= SetOf(failedFns)
      ensures done == if NeedsForRunning(taskEntries, tid, target) then before + {tid.0} else before
      ensures Spread(Needs(), s0, View(), done)
    {
      hide Spread, Combined, Dependencies, FailedTargets, AllDistinct;
      ghost var g := Needs();
      done := before;
      var irdepends := taskEntries[tid].irdepends;
      for i := 0 to |irdepends|
        invariant AllDistinct(Lists()) && Needs() == g
        invariant buildTargets.Keys == old(buildTargets.Keys) && runTargets.Keys == old(runTargets.Keys)
        invariant Spread(g, s0, View(), done)
        invariant old(SetOf(failedFns)) <= SetOf(failedFns)
        invariant done == if exists k :: 0 <= k < i && irdepends[k].0 == target then before + {tid.0} else before
      {
        assert irdepends[i] in irdepends;
        if irdepends[i].0 == target {
          ghost var s1 := View();
          assert tid == (tid.0, tid.1) && NeedsForRunning(taskEntries, tid, target);
          DependenciesMeaning(depIds, rdepIds, taskEntries, tid.0, target);
          FailFn(tid.0, universe);
          SpreadGrows(g, s1, View(), {tid.0});
          SpreadTransitive(g, s0, s1, View(), done, {tid.0});
          done := done + {tid.0};
        }
      }
    }

    // ---- what resolution keeps ----

    ghost predicate TablesMatch(cache: DataCache)
      reads `seenFns, `depIds, `rdepIds, `taskEntries
    {
      TablesRecord(SetOf(seenFns), depIds, rdepIds, taskEntries, cache)
    }

    ghost predicate Valid(cache: DataCache, pending: set<Fn>)
      reads this
    {
      && Sound(View(), SetOf(seenFns), pending, depIds, rdepIds, {})
      && TablesMatch(cache)
    }

    lemma NeedsWithinSeen(cache: DataCache)
      requires TablesMatch(cache)
      ensures forall e :: e in Needs() ==> e.0 in seenFns
      ensures forall f, n :: f in depIds && n in depIds[f] ==> (f, Build(n)) in Needs()
      ensures forall f, n :: f in rdepIds && n in rdepIds[f] ==> (f, Run(n)) in Needs()
    {
      forall f, n ensures (f, Build(n)) in Needs() ==> f in seenFns {
        DependenciesMeaning(depIds, rdepIds, taskEntries, f, n);
      }
      forall f, n ensures (f, Run(n)) in Needs() ==> f in seenFns {
        DependenciesMeaning(depIds, rdepIds, taskEntries, f, n);
      }
      forall e | e in Needs() ensures e.0 in seenFns {
        assert e == (e.0, Build(e.1.name)) || e == (e.0, Run(e.1.name));
      }
      forall f, n | f in depIds && n in depIds[f] ensures (f, Build(n)) in Needs() {
        DependenciesMeaning(depIds, rdepIds, taskEntries, f, n);
      }
      forall f, n | f in rdepIds && n in rdepIds[f] ensures (f, Run(n)) in Needs() {
        DependenciesMeaning(depIds, rdepIds, taskEntries, f, n);
      }
    }

    // ---- noting targets ----

    method SeenBuildTarget(name: Name)
      modifies `buildTargets
      ensures Extends(old(View()), View())
      ensures View().lists.Keys == old(View()).lists.Keys + {Build(name)}
    {
      hide Combined, FailedTargets;
      if name !in buildTargets {
        CombinedUpdate(buildTargets, runTargets, name, []);
        buildTargets := buildTargets[name := []];
      }
    }

    method SeenRunTarget(name: Name)
      modifies `runTargets
      ensures Extends(old(View()), View())
      ensures View().lists.Keys == old(View()).lists.Keys + {Run(name)}
    {
      hide Combined, FailedTargets;
      if name !in runTargets {
        CombinedUpdate(buildTargets, runTargets, name, []);
        runTargets := runTargets[name := []];
      }
    }

    /** Registers the tasks of a file and notes the targets they mention. */
    method AddTaskEntries(fn: Fn, cache: DataCache)
      requires fn in cache.tasks
      requires forall tid :: tid in taskEntries ==> tid.0 != fn
      modifies `taskEntries, `buildTargets, `runTargets
      ensures Noted(old(View()), View(), cache.AskedBy(fn))
      ensures cache.TaskTargets(fn) <= View().lists.Keys
      ensures OthersKept(old(taskEntries), taskEntries, fn)
      ensures TasksRecorded(taskEntries, fn, cache.tasks[fn])
    {
      hide Combined, FailedTargets, Noted, OthersKept, TasksRecorded, DataCache.AskedBy, TargetsOf;
      ghost var s0, entries0 := View(), taskEntries;
      NotedRefl(s0, cache.AskedBy(fn));
      NothingRecorded(taskEntries, fn, cache.tasks[fn][..0]);
      for i := 0 to |cache.tasks[fn]|
        invariant Noted(s0, View(), cache.AskedBy(fn))
        invariant forall k :: 0 <= k < i ==> TargetsOf(cache.tasks[fn][k].1) <= View().lists.Keys
        invariant OthersKept(entries0, taskEntries, fn)
        invariant TasksRecorded(taskEntries, fn, cache.tasks[fn][..i])
      {
        var (task, entry) := cache.tasks[fn][i];
        ghost var s1 := View();
        RecordOne(entries0, taskEntries, fn, cache.tasks[fn], i);
        taskEntries := taskEntries[(fn, task) := entry];
        AskedInTask(cache, fn, i);
        NoteTargets(entry, cache.AskedBy(fn));
        NotedKeeps(s1, View(), cache.AskedBy(fn));
        NotedTransitive(s0, s1, View(), cache.AskedBy(fn));
      }
      assert cache.tasks[fn][..|cache.tasks[fn]|] == cache.tasks[fn];
    }

    method NoteTargets(entry: TaskEntry, ghost asked: set<Target>)
      requires TargetsOf(entry) <= asked
      modifies `buildTargets, `runTargets
      ensures Noted(old(View()), View(), asked)
      ensures TargetsOf(entry) <= View().lists.Keys
    {
      hide Combined, FailedTargets, Noted, TargetsOf;
      NotedRefl(View(), asked);
      for k := 0 to |entry.idepends|
        invariant Noted(old(View()), View(), asked)
        invariant forall j :: 0 <= j < k ==> Build(entry.idepends[j].0) in View().lists
      {
        ghost var s1 := View();
        TargetsListed(entry, View().lists.Keys);
        SeenBuildTarget(entry.idepends[k].0);
        NotedOne(old(View()), s1, View(), asked, Build(entry.idepends[k].0));
      }
      ghost var s1 := View();
      NoteRunTargets(entry, asked);
      NotedTransitive(old(View()), s1, View(), asked);
      NotedKeeps(s1, View(), asked);
      TargetsListed(entry, View().lists.Keys);
    }

    /** The second of the two loops. */
    method NoteRunTargets(entry: TaskEntry, ghost asked: set<Target>)
      requires TargetsOf(entry) <= asked
      modifies `runTargets
      ensures Noted(old(View()), View(), asked)
      ensures forall j :: 0 <= j < |entry.irdepends| ==> Run(entry.irdepends[j].0) in View().lists
    {
      hide Combined, FailedTargets, Noted, TargetsOf;
      NotedRefl(View(), asked);
      for k := 0 to |entry.irdepends|
        invariant Noted(old(View()), View(), asked)
        invariant forall j :: 0 <= j < k ==> Run(entry.irdepends[j].0) in View().lists
      {
        ghost var s1 := View();
        TargetsListed(entry, View().lists.Keys);
        SeenRunTarget(entry.irdepends[k].0);
        NotedOne(old(View()), s1, View(), asked, Run(entry.irdepends[k].0));
      }
    }

    /** list(set(names)): each name once, in arbitrary order. */
    method Distinct(names: seq<Name>) returns (ids: seq<Name>)
      ensures SetOf(ids) == SetOf(names)
    {
      var todo := set x | x in names;
      ids := [];
      while todo != {}
        invariant SetOf(ids) + todo == SetOf(names)
      {
        var x :| x in todo;
        todo := todo - {x};
        ids := ids + [x];
      }
    }

    /** Notes the dependencies of a file in order, up to the first failed one. */
    method NoteDependencies(fn: Fn, cache: DataCache) returns (failedOne: bool)
      requires fn in depIds && fn in cache.deps && SetOf(depIds[fn]) == SetOf(cache.deps[fn])
      modifies `buildTargets
      ensures Noted(old(View()), View(), cache.AskedBy(fn))
      ensures !failedOne ==> forall n :: n in depIds[fn] ==> Build(n) in View().lists && Build(n) !in View().gone
      ensures failedOne ==> exists n :: n in SetOf(depIds[fn]) && Build(n) in old(Gone())
    {
      hide Combined, Noted, DataCache.AskedBy;
      NotedRefl(View(), cache.AskedBy(fn));
      for i := 0 to |depIds[fn]|
        invariant Noted(old(View()), View(), cache.AskedBy(fn))
        invariant forall k :: 0 <= k < i ==> depIds[fn][k] in buildTargets && depIds[fn][k] !in failedDeps
      {
        var dep := depIds[fn][i];
        ghost var s1 := View();
        assert dep in SetOf(depIds[fn]);
        AskedDependency(cache, fn, dep);
        SeenBuildTarget(dep);
        assert Build(dep) in View().lists;
        NotedOne(old(View()), s1, View(), cache.AskedBy(fn), Build(dep));
        if dep in failedDeps {
          return true;
        }
      }
      return false;
    }

    method NoteRuntimeDependencies(fn: Fn, cache: DataCache) returns (failedOne: bool)
      requires fn in rdepIds && fn in cache.rdeps && SetOf(rdepIds[fn]) == SetOf(cache.rdeps[fn])
      modifies `runTargets
      ensures Noted(old(View()), View(), cache.AskedBy(fn))
      ensures !failedOne ==> forall n :: n in rdepIds[fn] ==> Run(n) in View().lists && Run(n) !in View().gone
      ensures failedOne ==> exists n :: n in SetOf(rdepIds[fn]) && Run(n) in old(Gone())
    {
      hide Combined, Noted, DataCache.AskedBy;
      NotedRefl(View(), cache.AskedBy(fn));
      for i := 0 to |rdepIds[fn]|
        invariant Noted(old(View()), View(), cache.AskedBy(fn))
        invariant forall k :: 0 <= k < i ==> rdepIds[fn][k] in runTargets && rdepIds[fn][k] !in failedRdeps
      {
        var dep := rdepIds[fn][i];
        ghost var s1 := View();
        assert dep in SetOf(rdepIds[fn]);
        AskedDependency(cache, fn, dep);
        SeenRunTarget(dep);
        assert Run(dep) in View().lists;
        NotedOne(old(View()), s1, View(), cache.AskedBy(fn), Run(dep));
        if dep in failedRdeps {
          return true;
        }
      }
      return false;
    }

    /** Fails a file whose dependencies could not all be noted. */
    method FailUnready(fn: Fn, cache: DataCache)
      requires Sound(View(), SetOf(seenFns), {}, depIds, rdepIds, {fn}) && TablesMatch(cache)
      requires fn in seenFns
      modifies `buildTargets, `runTargets, `failedFns, `failedDeps, `failedRdeps
      ensures Valid(cache, {})
      ensures Advances(old(View()), View(), {})
      ensures Spread(Needs(), old(View()), View(), {fn})
    {
      hide Sound, Spread, TablesMatch, Combined, Dependencies, FailedTargets;
      NeedsWithinSeen(cache);
      ghost var g, s0 := Needs(), View();
      SoundDistinct(s0, SetOf(seenFns), {}, depIds, rdepIds, {fn});
      FailFn(fn, SetOf(seenFns));
      SoundSpread(g, s0, View(), {fn}, SetOf(seenFns), {}, depIds, rdepIds, {fn});
      SpreadAdvances(g, s0, View(), {fn});
    }

    /** Adds the tasks of a file and notes what it needs; the file fails if it needs a failed target.
        No caller passes a file that has failed, so the fatal error for that case cannot occur. */
    method AddTasks(fn: Fn, cache: DataCache)
      requires cache.Complete() && fn in cache.tasks
      requires fn !in failedFns
      requires Valid(cache, {fn})
      modifies this
      ensures Valid(cache, {})
      ensures Advances(old(View()), View(), cache.AskedBy(fn))
      ensures fn in old(seenFns) ==> View() == old(View()) && seenFns == old(seenFns)
      ensures fn !in old(seenFns) ==> seenFns == old(seenFns) + [fn]
      ensures fn !in old(seenFns) ==> cache.TaskTargets(fn) <= View().lists.Keys
      ensures fn !in old(seenFns) ==> FileAdded(Needs(), old(View()), View(), fn, cache.NeedsGone(fn, old(Gone())))
    {
      hide Sound, Noted, Combined, Dependencies, FailedTargets, Advances, DataCache.AskedBy, TablesRecord,
           FileAdded, DataCache.NeedsGone, SetOf, OthersKept, TasksRecorded;
      SetOfAppend(seenFns, fn);
      if fn in seenFns {
        SoundSeen(View(), SetOf(seenFns), fn, depIds, rdepIds);
        NotedAdvances(View(), View(), cache.AskedBy(fn));
        return;
      }
      TablesKeys(SetOf(seenFns), depIds, rdepIds, taskEntries, cache);
      ghost var s0, seen0 := View(), SetOf(seenFns);
      RecordFile(fn, cache);
      SoundNewFile(s0, seen0, fn, old(depIds), old(rdepIds), depIds[fn], rdepIds[fn]);
      TablesAdd(seen0, old(depIds), old(rdepIds), old(taskEntries), cache, fn, depIds[fn], rdepIds[fn], taskEntries);
      FinishTasks(fn, cache, s0);
    }

    /** Marks the file as seen and records its tasks and its dependencies. */
    method RecordFile(fn: Fn, cache: DataCache)
      requires fn in cache.tasks && fn in cache.deps && fn in cache.rdeps && fn !in depIds && fn !in rdepIds
      requires forall tid :: tid in taskEntries ==> tid.0 != fn
      modifies this
      ensures seenFns == old(seenFns) + [fn]
      ensures Noted(old(View()), View(), cache.AskedBy(fn)) && cache.TaskTargets(fn) <= View().lists.Keys
      ensures OthersKept(old(taskEntries), taskEntries, fn) && TasksRecorded(taskEntries, fn, cache.tasks[fn])
      ensures fn in depIds && depIds == old(depIds)[fn := depIds[fn]] && SetOf(depIds[fn]) == SetOf(cache.deps[fn])
      ensures fn in rdepIds && rdepIds == old(rdepIds)[fn := rdepIds[fn]] && SetOf(rdepIds[fn]) == SetOf(cache.rdeps[fn])
      ensures failedFns == old(failedFns) && failedDeps == old(failedDeps) && failedRdeps == old(failedRdeps)
    {
      hide Noted, Combined, FailedTargets, DataCache.AskedBy, SetOf, OthersKept, TasksRecorded;
      seenFns := seenFns + [fn];
      AddTaskEntries(fn, cache);
      NoteIds(fn, cache);
    }

    /** The dependencies of the file, each name once. */
    method NoteIds(fn: Fn, cache: DataCache)
      requires fn in cache.deps && fn in cache.rdeps && fn !in depIds && fn !in rdepIds
      modifies `depIds, `rdepIds
      ensures fn in depIds && depIds == old(depIds)[fn := depIds[fn]] && SetOf(depIds[fn]) == SetOf(cache.deps[fn])
      ensures fn in rdepIds && rdepIds == old(rdepIds)[fn := rdepIds[fn]] && SetOf(rdepIds[fn]) == SetOf(cache.rdeps[fn])
    {
      if fn !in depIds {
        var ids := Distinct(cache.deps[fn]);
        depIds := depIds[fn := ids];
      }
      if fn !in rdepIds {
        var rids := Distinct(cache.rdeps[fn]);
        rdepIds := rdepIds[fn := rids];
      }
    }

    /** The last part of AddTasks: the dependency loops. */
    method FinishTasks(fn: Fn, cache: DataCache, ghost s0: State)
      requires TablesMatch(cache) && fn in seenFns
      requires Sound(s0, SetOf(seenFns), {}, depIds, rdepIds, {fn})
      requires Noted(s0, View(), cache.AskedBy(fn))
      modifies `buildTargets, `runTargets, `failedFns, `failedDeps, `failedRdeps
      ensures Valid(cache, {})
      ensures old(View()).lists.Keys <= View().lists.Keys
      ensures Advances(s0, View(), cache.AskedBy(fn))
      ensures FileAdded(Needs(), s0, View(), fn, cache.NeedsGone(fn, s0.gone))
    {
      hide Sound, Noted, Combined, Dependencies, FailedTargets, Advances, DataCache.AskedBy, Spread, FileAdded,
           DataCache.NeedsGone, TablesRecord;
      TablesFile(SetOf(seenFns), depIds, rdepIds, taskEntries, cache, fn);
      NotedKeeps(s0, View(), cache.AskedBy(fn));
      ghost var s1 := View();
      var bad := NoteDependencies(fn, cache);
      NotedTransitive(s0, s1, View(), cache.AskedBy(fn));
      NotedKeeps(s1, View(), cache.AskedBy(fn));
      ghost var s2 := View();
      if !bad {
        bad := NoteRuntimeDependencies(fn, cache);
        NotedTransitive(s0, s2, View(), cache.AskedBy(fn));
        NotedKeeps(s2, View(), cache.AskedBy(fn));
      }
      ghost var s3 := View();
      NotedSound(s0, s3, cache.AskedBy(fn), SetOf(seenFns), depIds, rdepIds, {fn});
      NotedAdvances(s0, s3, cache.AskedBy(fn));
      NotedFileAdded(Needs(), s0, s3, s3, cache.AskedBy(fn), fn);
      NeedsGoneMeaning(cache, fn, s0.gone, depIds[fn], rdepIds[fn]);
      if bad {
        FailUnready(fn, cache);
        AdvancesSettled(s3, View(), {});
        AdvancesTransitive(s0, s3, View(), cache.AskedBy(fn));
        NotedFileAdded(Needs(), s0, s3, View(), cache.AskedBy(fn), fn);
      } else {
        SoundReady(View(), SetOf(seenFns), fn, depIds, rdepIds);
      }
    }

    /** Appends a provider unless it is listed already. */
    method AddBuildTarget(fn: Fn, item: Name)
      modifies `buildTargets
      ensures View() == Listed(old(View()), Build(item), fn)
    {
      hide Combined;
      if item in buildTargets {
        if fn in buildTargets[item] {
          return;
        }
        CombinedUpdate(buildTargets, runTargets, item, buildTargets[item] + [fn]);
        buildTargets := buildTargets[item := buildTargets[item] + [fn]];
        return;
      }
      CombinedUpdate(buildTargets, runTargets, item, [fn]);
      assert [] + [fn] == [fn];
      buildTargets := buildTargets[item := [fn]];
    }

    method AddRuntimeTarget(fn: Fn, item: Name)
      modifies `runTargets
      ensures View() == Listed(old(View()), Run(item), fn)
    {
      hide Combined;
      if item in runTargets {
        if fn in runTargets[item] {
          return;
        }
        CombinedUpdate(buildTargets, runTargets, item, runTargets[item] + [fn]);
        runTargets := runTargets[item := runTargets[item] + [fn]];
        return;
      }
      CombinedUpdate(buildTargets, runTargets, item, [fn]);
      assert [] + [fn] == [fn];
      runTargets := runTargets[item := [fn]];
    }

    method Eligible(candidates: seq<Fn>) returns (eligible: seq<Fn>)
      ensures eligible == Without(candidates, SetOf(failedFns))
    {
      eligible := [];
      for i := 0 to |candidates|
        invariant eligible == Without(candidates[..i], SetOf(failedFns))
      {
        assert candidates[..i + 1][..i] == candidates[..i];
        if candidates[i] !in failedFns {
          eligible := eligible + [candidates[i]];
        }
      }
      assert candidates[..|candidates|] == candidates;
    }

    /** The tasks of a file that a target lists. */
    method AddCandidate(fn: Fn, cache: DataCache, ghost roots: set<Target>, ghost t: Target)
      requires cache.Complete() && fn in cache.tasks && fn !in failedFns
      requires Valid(cache, {fn}) && Bounded(cache, View()) && Explored(cache, roots, View(), SetOf(seenFns))
      requires Wanted(roots, View(), t) && t in cache.Candidates() && fn in cache.Candidates()[t]
      modifies this
      ensures Valid(cache, {}) && Bounded(cache, View()) && Explored(cache, roots, View(), SetOf(seenFns))
      ensures Advances(old(View()), View(), cache.Mentioned()) && Steady(old(View()), View(), {})
    {
      hide Sound, Combined, FailedTargets, Advances, DataCache.Mentioned, TablesRecord, Dependencies, FileAdded,
           DataCache.NeedsGone, Bounded, Explored, Wanted, Steady, DataCache.AskedBy, DataCache.TaskTargets, SetOf,
           DataCache.Candidates;
      ghost var s1, seen := View(), SetOf(seenFns);
      ghost var isNew := fn !in seenFns;
      ghost var doomed := cache.NeedsGone(fn, Gone());
      SetOfAppend(seenFns, fn);
      AddTasks(fn, cache);
      AskedIsMentioned(cache, fn, s1, View());
      if isNew {
        NeedsAsked(cache);
        BoundedFileAdded(cache, Needs(), s1, View(), fn);
        ExploredCandidate(cache, roots, Needs(), s1, View(), seen, fn, t, doomed);
        FileAddedSteady(Needs(), s1, View(), fn, doomed);
      } else {
        SteadyRefl(s1, {});
      }
    }

    /** Adds one provider of a build target. */
    method Provide(fn: Fn, item: Name, cache: DataCache, ghost roots: set<Target>)
      requires cache.Complete() && fn in cache.tasks && fn !in failedFns
      requires Valid(cache, {}) && Bounded(cache, View())
      requires Explored(cache, roots, View(), SetOf(seenFns)) && Wanted(roots, View(), Build(item))
      requires MayLead(cache, View(), Build(item), fn)
      modifies this
      ensures Valid(cache, {}) && Bounded(cache, View()) && Explored(cache, roots, View(), SetOf(seenFns))
      ensures Advances(old(View()), View(), cache.Mentioned() + {Build(item)})
      ensures Build(item) in Settled(View())
      ensures Provided(old(View()), View(), Build(item), fn)
    {
      hide Sound, Combined, FailedTargets, Advances, DataCache.Mentioned, TablesRecord, Listed, Provided, Bounded, MayLead,
           Explored, Wanted, Steady;
      ghost var s0 := View();
      AddBuildTarget(fn, item);
      BoundedListed(cache, s0, Build(item), fn);
      ExploredListed(cache, roots, s0, SetOf(seenFns), Build(item), fn);
      SoundListed(s0, SetOf(seenFns), depIds, rdepIds, Build(item), fn);
      ListedSettles(s0, Build(item), fn);
      MayLeadCandidate(cache, s0, Build(item), fn);
      ghost var s1 := View();
      WantedStill(roots, s0, s1, {Build(item)}, Build(item));
      AddCandidate(fn, cache, roots, Build(item));
      AdvancesThrough(s0, s1, View(), cache.Mentioned(), Build(item));
      ProvidedSteady(s0, View(), Build(item), fn);
    }

    method ProvideRuntime(fn: Fn, item: Name, cache: DataCache, ghost roots: set<Target>)
      requires cache.Complete() && fn in cache.tasks && fn !in failedFns
      requires Valid(cache, {}) && Bounded(cache, View())
      requires Explored(cache, roots, View(), SetOf(seenFns)) && Wanted(roots, View(), Run(item))
      requires MayLead(cache, View(), Run(item), fn)
      modifies this
      ensures Valid(cache, {}) && Bounded(cache, View()) && Explored(cache, roots, View(), SetOf(seenFns))
      ensures Advances(old(View()), View(), cache.Mentioned() + {Run(item)})
      ensures Run(item) in Settled(View())
      ensures Provided(old(View()), View(), Run(item), fn)
    {
      hide Sound, Combined, FailedTargets, Advances, DataCache.Mentioned, TablesRecord, Listed, Provided, Bounded, MayLead,
           Explored, Wanted, Steady;
      ghost var s0 := View();
      AddRuntimeTarget(fn, item);
      BoundedListed(cache, s0, Run(item), fn);
      ExploredListed(cache, roots, s0, SetOf(seenFns), Run(item), fn);
      SoundListed(s0, SetOf(seenFns), depIds, rdepIds, Run(item), fn);
      ListedSettles(s0, Run(item), fn);
      MayLeadCandidate(cache, s0, Run(item), fn);
      ghost var s1 := View();
      WantedStill(roots, s0, s1, {Run(item)}, Run(item));
      AddCandidate(fn, cache, roots, Run(item));
      AdvancesThrough(s0, s1, View(), cache.Mentioned(), Run(item));
      ProvidedSteady(s0, View(), Run(item), fn);
    }

    /** Valid, every provided target lists exactly its candidates that have not failed, and only what had
        to fail has failed. */
    ghost predicate Consistent(cache: DataCache, roots: set<Target>)
      reads this
    {
      Valid(cache, {}) && Exact(View(), cache.Candidates()) && Bounded(cache, View())
      && Explored(cache, roots, View(), SetOf(seenFns))
    }

    /** The tables hold only what the recipes ask for. */
    lemma NeedsAsked(cache: DataCache)
      requires TablesMatch(cache)
      ensures Covered(cache, Needs())
    {
      forall e | e in Needs() ensures cache.Asks(e.0, e.1) {
        FileAsks(cache, e.0, e.1);
      }
    }

    lemma FileAsks(cache: DataCache, f: Fn, t: Target)
      requires TablesMatch(cache) && (f, t) in Needs()
      ensures cache.Asks(f, t)
    {
      hide Dependencies, NamesOf, DataCache.AskedBy, TargetsOf, TasksRecorded;
      NeedsWithinSeen(cache);
      TablesFile(SetOf(seenFns), depIds, rdepIds, taskEntries, cache, f);
      DependenciesMeaning(depIds, rdepIds, taskEntries, f, t.name);
      AskedDependency(cache, f, t.name);
      match t {
        case Build(n) =>
          if f in depIds && n in depIds[f] {
            assert n in SetOf(depIds[f]) && n in SetOf(cache.deps[f]);
          } else {
            var task :| NeedsForBuilding(taskEntries, (f, task), n);
            RecordedAsks(cache, taskEntries, f, task, n);
          }
        case Run(n) =>
          if f in rdepIds && n in rdepIds[f] {
            assert n in SetOf(rdepIds[f]) && n in SetOf(cache.rdeps[f]);
          } else {
            var task :| NeedsForRunning(taskEntries, (f, task), n);
            RecordedAsks(cache, taskEntries, f, task, n);
          }
      }
    }

    /** The loop over the eligible providers of a build target. */
    method ProvideAll(cache: DataCache, ghost roots: set<Target>, item: Name, eligible: seq<Fn>)
      requires cache.Complete() && Consistent(cache, roots)
      requires Wanted(roots, View(), Build(item))
      requires !cache.ignored(item) && item in cache.providers && ListOf(View(), Build(item)) == []
      requires eligible == Without(cache.providers[item], SetOf(failedFns)) && eligible != []
      modifies this
      ensures Consistent(cache, roots)
      ensures Advances(old(View()), View(), cache.Mentioned() + {Build(item)})
      ensures Build(item) in Settled(View()) && Build(item) in cache.Candidates()
      ensures ListOf(View(), Build(item)) == Without(cache.Candidates()[Build(item)], SetOf(failedFns))
    {
      hide Sound, Combined, FailedTargets, Advances, DataCache.Mentioned, TablesRecord, Dependencies, Steady, Provided, Bounded,
           MayLead, Explored, Wanted;
      AdvancesRefl(View(), cache.Mentioned() + {Build(item)});
      ghost var s0 := View();
      WithoutKeepsNoDuplicates(cache.providers[item], s0.failed);
      SteadyRefl(s0, {Build(item)});
      for i := 0 to |eligible|
        invariant Valid(cache, {}) && Bounded(cache, View()) && Explored(cache, roots, View(), SetOf(seenFns))
        invariant Advances(s0, View(), cache.Mentioned() + {Build(item)})
        invariant i == 0 ==> failedFns == old(failedFns)
        invariant i > 0 ==> Build(item) in Settled(View())
        invariant Steady(s0, View(), {Build(item)})
        invariant ListOf(View(), Build(item)) == Without(eligible[..i], SetOf(failedFns))
      {
        assert eligible[i] in eligible;
        ghost var s1 := View();
        if eligible[i] !in failedFns {
          AdvancesFailed(s0, s1, cache.Mentioned() + {Build(item)});
          WantedStill(roots, s0, s1, cache.Mentioned() + {Build(item)}, Build(item));
          NextMayLead(cache, s0, s1, Build(item), eligible, i);
          Provide(eligible[i], item, cache, roots);
          AdvancesTransitive(s0, s1, View(), cache.Mentioned() + {Build(item)});
          ProvidedNext(eligible, i, s1, View(), Build(item));
          SteadyTransitive(s0, s1, View(), {Build(item)});
        } else {
          SkippedCandidate(eligible, i, s1.failed);
        }
      }
      AllCandidates(cache.providers[item], eligible, s0, View(), cache.Candidates(), Build(item));
    }

    /** Adds every selectable provider of a build target. Nothing changes when there is none. */
    method AddProviderInternal(cache: DataCache, ghost roots: set<Target>, item: Name) returns (outcome: Outcome)
      requires cache.Complete() && Consistent(cache, roots)
      requires Wanted(roots, View(), Build(item))
      modifies this
      ensures Consistent(cache, roots)
      ensures outcome == BuildOutcome(cache, item, ListOf(old(View()), Build(item)) != [], SetOf(old(failedFns)))
      ensures Advances(old(View()), View(), cache.Mentioned() + {Build(item)})
      ensures outcome == Added || outcome == NoProvider
      ensures outcome == Added ==> cache.ignored(item) || Build(item) in Settled(View())
      ensures outcome == Added && !cache.ignored(item) ==>
                && Build(item) in cache.Candidates()
                && ListOf(View(), Build(item)) == Without(cache.Candidates()[Build(item)], SetOf(failedFns))
      ensures outcome == NoProvider ==> View() == old(View()) && cache.NoCandidate(item, SetOf(failedFns))
      ensures outcome == NoProvider ==> cache.Hopeless(Build(item), SetOf(failedFns))
    {
      hide Sound, Combined, FailedTargets, Advances, DataCache.Mentioned, TablesRecord, Dependencies, Steady, Provided, Bounded,
           MayLead, DataCache.Hopeless, Explored, Wanted;
      AdvancesRefl(View(), cache.Mentioned() + {Build(item)});
      if cache.ignored(item) {
        return Added;
      }
      if item !in cache.providers {
        BuildHopeless(cache, item, SetOf(failedFns));
        return NoProvider;
      }
      if item in buildTargets && buildTargets[item] != [] {
        return Added;
      }
      var eligible := Eligible(cache.providers[item]);
      LiveLeft(cache.providers[item], SetOf(failedFns));
      if eligible == [] {
        assert forall f :: f in cache.providers[item] ==> f in failedFns;
        BuildHopeless(cache, item, SetOf(failedFns));
        return NoProvider;
      }
      ProvideAll(cache, roots, item, eligible);
      return Added;
    }

    /** The loop over the eligible providers of a run-time target. */
    method ProvideAllRuntime(cache: DataCache, ghost roots: set<Target>, item: Name, eligible: seq<Fn>)
      requires cache.Complete() && Consistent(cache, roots)
      requires Wanted(roots, View(), Run(item))
      requires !cache.ignored(item) && item in cache.rproviders && ListOf(View(), Run(item)) == []
      requires eligible == Without(cache.rproviders[item].0, SetOf(failedFns)) && eligible != []
      modifies this
      ensures Consistent(cache, roots)
      ensures Advances(old(View()), View(), cache.Mentioned() + {Run(item)})
      ensures Run(item) in Settled(View()) && Run(item) in cache.Candidates()
      ensures ListOf(View(), Run(item)) == Without(cache.Candidates()[Run(item)], SetOf(failedFns))
    {
      hide Sound, Combined, FailedTargets, Advances, DataCache.Mentioned, TablesRecord, Dependencies, Steady, Provided, Bounded,
           MayLead, Explored, Wanted;
      AdvancesRefl(View(), cache.Mentioned() + {Run(item)});
      ghost var s0 := View();
      WithoutKeepsNoDuplicates(cache.rproviders[item].0, s0.failed);
      SteadyRefl(s0, {Run(item)});
      for i := 0 to |eligible|
        invariant Valid(cache, {}) && Bounded(cache, View()) && Explored(cache, roots, View(), SetOf(seenFns))
        invariant Advances(s0, View(), cache.Mentioned() + {Run(item)})
        invariant i == 0 ==> failedFns == old(failedFns)
        invariant i > 0 ==> Run(item) in Settled(View())
        invariant Steady(s0, View(), {Run(item)})
        invariant ListOf(View(), Run(item)) == Without(eligible[..i], SetOf(failedFns))
      {
        assert eligible[i] in eligible;
        ghost var s1 := View();
        if eligible[i] !in failedFns {
          AdvancesFailed(s0, s1, cache.Mentioned() + {Run(item)});
          WantedStill(roots, s0, s1, cache.Mentioned() + {Run(item)}, Run(item));
          NextMayLead(cache, s0, s1, Run(item), eligible, i);
          ProvideRuntime(eligible[i], item, cache, roots);
          AdvancesTransitive(s0, s1, View(), cache.Mentioned() + {Run(item)});
          ProvidedNext(eligible, i, s1, View(), Run(item));
          SteadyTransitive(s0, s1, View(), {Run(item)});
        } else {
          SkippedCandidate(eligible, i, s1.failed);
        }
      }
      AllCandidates(cache.rproviders[item].0, eligible, s0, View(), cache.Candidates(), Run(item));
    }

    /** Adds every selectable provider of a run-time target. */
    method AddRprovider(cache: DataCache, ghost roots: set<Target>, item: Name) returns (outcome: Outcome)
      requires cache.Complete() && Consistent(cache, roots)
      requires Wanted(roots, View(), Run(item))
      modifies this
      ensures Consistent(cache, roots)
      ensures outcome == RunOutcome(cache, item, ListOf(old(View()), Run(item)) != [], SetOf(old(failedFns)))
      ensures Advances(old(View()), View(), cache.Mentioned() + {Run(item)})
      ensures outcome == Added ==> cache.ignored(item) || Run(item) in Settled(View())
      ensures outcome == Added && !cache.ignored(item) ==>
                && Run(item) in cache.Candidates()
                && ListOf(View(), Run(item)) == Without(cache.Candidates()[Run(item)], SetOf(failedFns))
      ensures outcome != Added ==> View() == old(View()) && cache.Hopeless(Run(item), SetOf(failedFns))
    {
      hide Sound, Combined, FailedTargets, Advances, DataCache.Mentioned, TablesRecord, Dependencies, Steady, Provided, Bounded,
           MayLead, DataCache.Hopeless, Explored, Wanted;
      AdvancesRefl(View(), cache.Mentioned() + {Run(item)});
      if cache.ignored(item) {
        return Added;
      }
      if item in runTargets && runTargets[item] != [] {
        return Added;
      }
      if item !in cache.rproviders {
        RunHopeless(cache, item, SetOf(failedFns));
        return NoProvider;
      }
      var (candidates, preferred) := cache.rproviders[item];
      var eligible := Eligible(candidates);
      LiveLeft(candidates, SetOf(failedFns));
      if eligible == [] || preferred > 1 {
        RunHopeless(cache, item, SetOf(failedFns));
      }
      if eligible == [] {
        return NoProvider;
      }
      if preferred > 1 {
        return MultipleProviders;
      }
      ProvideAllRuntime(cache, roots, item, eligible);
      return Added;
    }

    /** Declares a build target failed between two steps. */
    method GiveUp(cache: DataCache, ghost roots: set<Target>, item: Name)
      requires Consistent(cache, roots) && cache.Hopeless(Build(item), SetOf(failedFns))
      requires Wanted(roots, View(), Build(item))
      modifies `buildTargets, `runTargets, `failedFns, `failedDeps, `failedRdeps
      ensures Consistent(cache, roots)
      ensures Advances(old(View()), View(), {})
      ensures Build(item) in Settled(View())
    {
      hide Sound, Spread, Combined, Dependencies, FailedTargets, Advances, TablesRecord, Exact, Bounded, DataCache.Hopeless,
           Explored, Wanted;
      NeedsWithinSeen(cache);
      ghost var g, s0 := Needs(), View();
      ghost var dependees := set e | e in g && e.1 == Build(item) :: e.0;
      SoundDistinct(s0, SetOf(seenFns), {}, depIds, rdepIds, {});
      SoundDeclareGone(s0, SetOf(seenFns), depIds, rdepIds, Build(item), dependees, g);
      RemoveBuildTarget(item, SetOf(seenFns));
      ghost var s1 := s0.(gone := s0.gone + {Build(item)});
      SoundSpread(g, s1, View(), dependees, SetOf(seenFns), {}, depIds, rdepIds, dependees);
      SpreadAdvances(g, s1, View(), dependees);
      SpreadExact(g, s0, s1, View(), dependees, cache.Candidates());
      NeedsAsked(cache);
      BoundedGaveUp(cache, g, s0, View(), Build(item));
      ExploredGone(cache, roots, g, s0, View(), SetOf(seenFns), Build(item), dependees);
      GoneAdvances(s0, s1, View(), Build(item));
    }

    method GiveUpRuntime(cache: DataCache, ghost roots: set<Target>, item: Name)
      requires Consistent(cache, roots) && cache.Hopeless(Run(item), SetOf(failedFns))
      requires Wanted(roots, View(), Run(item))
      modifies `buildTargets, `runTargets, `failedFns, `failedDeps, `failedRdeps
      ensures Consistent(cache, roots)
      ensures Advances(old(View()), View(), {})
      ensures Run(item) in Settled(View())
    {
      hide Sound, Spread, Combined, Dependencies, FailedTargets, Advances, TablesRecord, Exact, Bounded, DataCache.Hopeless,
           Explored, Wanted;
      NeedsWithinSeen(cache);
      ghost var g, s0 := Needs(), View();
      ghost var dependees := set e | e in g && e.1 == Run(item) :: e.0;
      SoundDistinct(s0, SetOf(seenFns), {}, depIds, rdepIds, {});
      SoundDeclareGone(s0, SetOf(seenFns), depIds, rdepIds, Run(item), dependees, g);
      RemoveRunTarget(item, SetOf(seenFns));
      ghost var s1 := s0.(gone := s0.gone + {Run(item)});
      SoundSpread(g, s1, View(), dependees, SetOf(seenFns), {}, depIds, rdepIds, dependees);
      SpreadAdvances(g, s1, View(), dependees);
      SpreadExact(g, s0, s1, View(), dependees, cache.Candidates());
      NeedsAsked(cache);
      BoundedGaveUp(cache, g, s0, View(), Run(item));
      ExploredGone(cache, roots, g, s0, View(), SetOf(seenFns), Run(item), dependees);
      GoneAdvances(s0, s1, View(), Run(item));
    }

    /** Build targets that are neither ignored, failed nor provided. */
    method GetUnresolvedBuildTargets(cache: DataCache) returns (unresolved: seq<Name>)
      ensures forall n :: n in unresolved <==> n in buildTargets && !cache.ignored(n) && Build(n) !in Settled(View())
    {
      hide Combined, FailedTargets;
      unresolved := [];
      var todo := buildTargets.Keys;
      while todo != {}
        invariant todo <= buildTargets.Keys
        invariant forall n :: n in unresolved <==>
                    n in buildTargets && n !in todo && !cache.ignored(n) && n !in failedDeps && buildTargets[n] == []
      {
        var target :| target in todo;
        todo := todo - {target};
        if cache.ignored(target) {
          continue;
        }
        if target in failedDeps {
          continue;
        }
        if buildTargets[target] == [] {
          unresolved := unresolved + [target];
        }
      }
    }

    method GetUnresolvedRunTargets(cache: DataCache) returns (unresolved: seq<Name>)
      ensures forall n :: n in unresolved <==> n in runTargets && !cache.ignored(n) && Run(n) !in Settled(View())
    {
      hide Combined, FailedTargets;
      unresolved := [];
      var todo := runTargets.Keys;
      while todo != {}
        invariant todo <= runTargets.Keys
        invariant forall n :: n in unresolved <==>
                    n in runTargets && n !in todo && !cache.ignored(n) && n !in failedRdeps && runTargets[n] == []
      {
        var target :| target in todo;
        todo := todo - {target};
        if cache.ignored(target) {
          continue;
        }
        if target in failedRdeps {
          continue;
        }
        if runTargets[target] == [] {
          unresolved := unresolved + [target];
        }
      }
    }

    /** A target asked for from outside. */
    method AddProvider(cache: DataCache, ghost roots: set<Target>, item: Name)
      requires cache.Complete() && Consistent(cache, roots)
      requires Build(item) in roots
      modifies this
      ensures Consistent(cache, roots)
      ensures Advances(old(View()), View(), cache.Mentioned() + {Build(item)})
      ensures cache.ignored(item) || Build(item) in Settled(View())
    {
      hide Sound, Combined, FailedTargets, Advances, DataCache.Mentioned, TablesRecord, Dependencies, Bounded, DataCache.Hopeless,
           Explored;
      ghost var s0 := View();
      var outcome := AddProviderInternal(cache, roots, item);
      if outcome == NoProvider {
        ghost var s1 := View();
        GiveUp(cache, roots, item);
        AdvancesTransitive(s0, s1, View(), cache.Mentioned() + {Build(item)});
      }
    }

    /** The target is ignored, or it has providers, none of which failed and all of whose tasks were
        added, or (when incomplete results are allowed) it is a build target without a candidate. */
    ghost predicate Met(cache: DataCache, t: Target)
      reads this
    {
      || cache.ignored(t.name)
      || (t in Lists() && Lists()[t] != [] && forall x :: x in Lists()[t] ==> x !in failedFns && x in seenFns)
      || (allowIncomplete && t.Build? && cache.NoCandidate(t.name, SetOf(failedFns)))
    }

    /** Every file that was added and has not failed has everything its recipe asks for. */
    ghost predicate Resolved(cache: DataCache)
      reads this
    {
      forall f :: f in seenFns && f !in failedFns ==>
        && f in cache.deps && (forall n :: n in cache.deps[f] ==> Met(cache, Build(n)))
        && f in cache.rdeps && (forall n :: n in cache.rdeps[f] ==> Met(cache, Run(n)))
    }

    /** Every failed target has no candidate, too many preferred ones, or a failed first candidate; and the
        failed files lie within every set that holds all files asking for such a target. */
    ghost predicate OnlyDoomedFail(cache: DataCache)
      reads this
    {
      && (forall n :: n in failedDeps ==> cache.Hopeless(Build(n), SetOf(failedFns)))
      && (forall n :: n in failedRdeps ==> cache.Hopeless(Run(n), SetOf(failedFns)))
      && (forall c: set<Fn> :: cache.HoldsDoomed(c) ==> SetOf(failedFns) <= c)
    }

    lemma BoundedDooms(cache: DataCache, roots: set<Target>)
      requires Consistent(cache, roots)
      ensures OnlyDoomedFail(cache)
    {
      hide Sound, TablesRecord, Exact, Explored, Led, DataCache.Hopeless, DataCache.HoldsDoomed, FailedTargets, Combined, SetOf;
    }

    /** Nothing fails when every name the recipes mention is provided for. */
    lemma NothingFails(cache: DataCache)
      requires OnlyDoomedFail(cache) && cache.Provides()
      ensures failedFns == []
      ensures forall n :: n in failedDeps ==> n !in cache.providers || cache.providers[n] == []
      ensures forall n :: n in failedRdeps ==>
                n !in cache.rproviders || cache.rproviders[n].0 == [] || cache.rproviders[n].1 > 1
    {
      hide DataCache.HoldsDoomed, DataCache.Provides;
      NobodyDoomed(cache);
      SetOfNothing(failedFns);
    }

    /** What was asked for is ignored, has failed, or is provided by all its candidates that have not failed. */
    ghost predicate Answered(cache: DataCache, n: Name)
      reads this
    {
      || cache.ignored(n)
      || n in failedDeps
      || (&& n in buildTargets && buildTargets[n] != []
          && n in cache.providers && buildTargets[n] == Without(cache.providers[n], SetOf(failedFns))
          && forall f :: f in buildTargets[n] ==> f in seenFns && f !in failedFns)
    }

    lemma ConsistentExplored(cache: DataCache, roots: set<Target>)
      requires Consistent(cache, roots)
      ensures Explored(cache, roots, View(), SetOf(seenFns))
    {
    }

    lemma SettledIsAnswered(cache: DataCache, roots: set<Target>, n: Name)
      requires Consistent(cache, roots) && Build(n) in Settled(View())
      ensures Answered(cache, n)
    {
      hide TablesRecord, Bounded, Explored, Combined, FailedTargets, Without;
      if n !in failedDeps {
        assert ListOf(View(), Build(n)) == buildTargets[n] != [];
        assert Build(n) in cache.Candidates();
        assert forall x :: x in View().lists[Build(n)] ==> x !in View().failed && x in SetOf(seenFns);
      }
    }

    lemma FinishedIsResolved(cache: DataCache, roots: set<Target>)
      requires Consistent(cache, roots)
      requires forall t :: t in Lists() ==> Finished(cache, allowIncomplete, View(), t)
      ensures Resolved(cache)
    {
      hide Met, Finished, Exact, Bounded, Explored;
      forall f | f in seenFns && f !in failedFns
        ensures f in cache.deps && forall n :: n in cache.deps[f] ==> Met(cache, Build(n))
        ensures f in cache.rdeps && forall n :: n in cache.rdeps[f] ==> Met(cache, Run(n))
      {
        FileNames(cache, f);
        forall n | n in cache.deps[f] ensures Met(cache, Build(n)) {
          FinishedIsMet(cache, Build(n));
        }
        forall n | n in cache.rdeps[f] ensures Met(cache, Run(n)) {
          FinishedIsMet(cache, Run(n));
        }
      }
    }

    /** What a live file needs is known and has not failed. */
    lemma FileNames(cache: DataCache, f: Fn)
      requires Valid(cache, {}) && f in seenFns && f !in failedFns
      ensures f in cache.deps && forall n :: n in cache.deps[f] ==> Build(n) in Lists() && Build(n) !in Gone()
      ensures f in cache.rdeps && forall n :: n in cache.rdeps[f] ==> Run(n) in Lists() && Run(n) !in Gone()
    {
      hide Combined, FailedTargets;
      assert FileRecorded(f, depIds, rdepIds, taskEntries, cache);
      assert DepsLive(View(), depIds, rdepIds, f);
      forall n | n in cache.deps[f] ensures n in depIds[f] {
        assert n in SetOf(cache.deps[f]) && n in SetOf(depIds[f]);
      }
      forall n | n in cache.rdeps[f] ensures n in rdepIds[f] {
        assert n in SetOf(cache.rdeps[f]) && n in SetOf(rdepIds[f]);
      }
    }

    lemma FinishedIsMet(cache: DataCache, t: Target)
      requires Valid(cache, {}) && t in Lists() && t !in Gone() && Finished(cache, allowIncomplete, View(), t)
      ensures Met(cache, t)
    {
      hide Combined, FailedTargets;
      assert forall x :: x in View().lists[t] ==> x !in View().failed && x in SetOf(seenFns);
    }

    /** One pass over the unresolved build targets. */
    method ResolveBuildTargets(cache: DataCache, ghost roots: set<Target>) returns (added: nat)
      requires cache.Complete() && Consistent(cache, roots)
      modifies this
      ensures Consistent(cache, roots)
      ensures Advances(old(View()), View(), cache.Mentioned())
      ensures added > 0 ==> exists t :: t in old(View()).lists && t !in Settled(old(View())) && t in Settled(View())
      ensures added == 0 ==> View().lists.Keys == old(View()).lists.Keys
      ensures added == 0 ==> forall n :: Build(n) in old(View()).lists ==> Finished(cache, allowIncomplete, View(), Build(n))
    {
      hide Sound, Combined, FailedTargets, DataCache.Mentioned, TablesRecord, Dependencies, Settled, Finished, Advances, Exact, Bounded, Explored;
      ghost var s0, m := View(), cache.Mentioned();
      AdvancesRefl(s0, m);
      var unresolved := GetUnresolvedBuildTargets(cache);
      added := 0;
      for i := 0 to |unresolved|
        invariant Consistent(cache, roots)
        invariant Advances(s0, View(), m)
        invariant added > 0 ==> exists t :: t in s0.lists && t !in Settled(s0) && t in Settled(View())
        invariant added == 0 ==> View().lists.Keys == s0.lists.Keys
        invariant added == 0 ==> forall k :: 0 <= k < i ==> Finished(cache, allowIncomplete, View(), Build(unresolved[k]))
      {
        assert unresolved[i] in unresolved;
        ghost var s1 := View();
        var wasAdded := ResolveBuildTarget(cache, roots, unresolved[i], s0);
        if wasAdded {
          added := added + 1;
        } else {
          AdvancesSettled(s1, View(), {});
          forall k | added == 0 && 0 <= k < i ensures Finished(cache, allowIncomplete, View(), Build(unresolved[k])) {
            FinishedMonotone(cache, allowIncomplete, s1, View(), {}, Build(unresolved[k]));
          }
        }
      }
      forall n | added == 0 && Build(n) in s0.lists ensures Finished(cache, allowIncomplete, View(), Build(n)) {
        if n in unresolved {
          var k :| 0 <= k < |unresolved| && unresolved[k] == n;
        } else {
          StartedFinished(cache, allowIncomplete, s0, View(), m, Build(n));
        }
      }
    }

    /** The body of that loop, for one target that was unresolved when the pass began. */
    method ResolveBuildTarget(cache: DataCache, ghost roots: set<Target>, target: Name, ghost s0: State) returns (added: bool)
      requires cache.Complete() && Consistent(cache, roots)
      requires Build(target) in s0.lists && Build(target) !in Settled(s0) && !cache.ignored(target)
      requires Advances(s0, View(), cache.Mentioned())
      modifies this
      ensures Consistent(cache, roots)
      ensures Advances(s0, View(), cache.Mentioned())
      ensures Settled(old(View())) <= Settled(View())
      ensures added ==> Build(target) in Settled(View())
      ensures !added ==> Advances(old(View()), View(), {})
      ensures !added ==> View().lists.Keys == old(View()).lists.Keys
      ensures !added ==> Finished(cache, allowIncomplete, View(), Build(target))
    {
      hide Sound, Combined, FailedTargets, DataCache.Mentioned, TablesRecord, Dependencies, Settled, Advances, Exact, Bounded, DataCache.Hopeless,
           Explored;
      ghost var s1, m := View(), cache.Mentioned();
      AdvancesSettled(s0, s1, m);
      var outcome := AddProviderInternal(cache, roots, target);
      AdvancesSettled(s1, View(), m + {Build(target)});
      AdvancesKnown(s0, s1, View(), m, Build(target));
      if outcome == Added {
        return true;
      }
      AdvancesRefl(View(), {});
      if !allowIncomplete {
        GiveUp(cache, roots, target);
        AdvancesTransitive(s0, s1, View(), m);
        AdvancesSettled(s1, View(), {});
      }
      return false;
    }

    /** One pass over the unresolved run-time targets. */
    method ResolveRunTargets(cache: DataCache, ghost roots: set<Target>) returns (added: nat)
      requires cache.Complete() && Consistent(cache, roots)
      modifies this
      ensures Consistent(cache, roots)
      ensures Advances(old(View()), View(), cache.Mentioned())
      ensures added > 0 ==> exists t :: t in old(View()).lists && t !in Settled(old(View())) && t in Settled(View())
      ensures added == 0 ==> View().lists.Keys == old(View()).lists.Keys
      ensures added == 0 ==> forall n :: Run(n) in old(View()).lists ==> Finished(cache, allowIncomplete, View(), Run(n))
    {
      hide Sound, Combined, FailedTargets, DataCache.Mentioned, TablesRecord, Dependencies, Settled, Finished, Advances, Exact, Bounded, Explored;
      ghost var s0, m := View(), cache.Mentioned();
      AdvancesRefl(s0, m);
      var unresolved := GetUnresolvedRunTargets(cache);
      added := 0;
      for i := 0 to |unresolved|
        invariant Consistent(cache, roots)
        invariant Advances(s0, View(), m)
        invariant added > 0 ==> exists t :: t in s0.lists && t !in Settled(s0) && t in Settled(View())
        invariant added == 0 ==> View().lists.Keys == s0.lists.Keys
        invariant added == 0 ==> forall k :: 0 <= k < i ==> Finished(cache, allowIncomplete, View(), Run(unresolved[k]))
      {
        assert unresolved[i] in unresolved;
        ghost var s1 := View();
        var wasAdded := ResolveRunTarget(cache, roots, unresolved[i], s0);
        if wasAdded {
          added := added + 1;
        } else {
          AdvancesSettled(s1, View(), {});
          forall k | added == 0 && 0 <= k < i ensures Finished(cache, allowIncomplete, View(), Run(unresolved[k])) {
            FinishedMonotone(cache, allowIncomplete, s1, View(), {}, Run(unresolved[k]));
          }
        }
      }
      forall n | added == 0 && Run(n) in s0.lists ensures Finished(cache, allowIncomplete, View(), Run(n)) {
        if n in unresolved {
          var k :| 0 <= k < |unresolved| && unresolved[k] == n;
        } else {
          StartedFinished(cache, allowIncomplete, s0, View(), m, Run(n));
        }
      }
    }

    /** The body of that loop, for one target that was unresolved when the pass began. */
    method ResolveRunTarget(cache: DataCache, ghost roots: set<Target>, target: Name, ghost s0: State) returns (added: bool)
      requires cache.Complete() && Consistent(cache, roots)
      requires Run(target) in s0.lists && Run(target) !in Settled(s0) && !cache.ignored(target)
      requires Advances(s0, View(), cache.Mentioned())
      modifies this
      ensures Consistent(cache, roots)
      ensures Advances(s0, View(), cache.Mentioned())
      ensures Settled(old(View())) <= Settled(View())
      ensures added ==> Run(target) in Settled(View())
      ensures !added ==> Advances(old(View()), View(), {})
      ensures !added ==> View().lists.Keys == old(View()).lists.Keys
      ensures !added ==> Finished(cache, allowIncomplete, View(), Run(target))
    {
      hide Sound, Combined, FailedTargets, DataCache.Mentioned, TablesRecord, Dependencies, Settled, Advances, Exact, Bounded, DataCache.Hopeless,
           Explored;
      ghost var s1, m := View(), cache.Mentioned();
      AdvancesSettled(s0, s1, m);
      var outcome := AddRprovider(cache, roots, target);
      AdvancesSettled(s1, View(), m + {Run(target)});
      AdvancesKnown(s0, s1, View(), m, Run(target));
      if outcome == Added {
        return true;
      }
      AdvancesRefl(View(), {});
      GiveUpRuntime(cache, roots, target);
      AdvancesTransitive(s0, s1, View(), m);
      AdvancesSettled(s1, View(), {});
      return false;
    }

    /** Resolution runs until a pass adds nothing. Afterwards nothing more can be done for any known target,
        and so every dependency of every file that has not failed is met. */
    method AddUnresolved(cache: DataCache, ghost roots: set<Target>)
      requires cache.Complete() && Consistent(cache, roots)
      modifies this
      ensures Consistent(cache, roots)
      ensures Settled(old(View())) <= Settled(View())
      ensures forall t :: t in Lists() ==> Finished(cache, allowIncomplete, View(), t)
      ensures Resolved(cache)
      ensures OnlyDoomedFail(cache)
    {
      hide Sound, Combined, FailedTargets, DataCache.Mentioned, TablesRecord, Dependencies, Settled, Finished, Resolved, Advances, Exact, Bounded,
           Explored;
      ghost var m := cache.Mentioned();
      ghost var names := View().lists.Keys + m;
      while true
        invariant Consistent(cache, roots)
        invariant View().lists.Keys <= names && Settled(old(View())) <= Settled(View())
        decreases names - Settled(View())
      {
        ghost var s0 := View();
        var added := ResolveBuildTargets(cache, roots);
        ghost var s1 := View();
        var more := ResolveRunTargets(cache, roots);
        ghost var s2 := View();
        AdvancesSettled(s0, s1, m);
        AdvancesSettled(s1, s2, m);
        added := added + more;
        if added == 0 {
          forall t | t in s2.lists ensures Finished(cache, allowIncomplete, s2, t) {
            if t.Build? {
              assert t == Build(t.name);
              FinishedMonotone(cache, allowIncomplete, s1, s2, m, t);
            } else {
              assert t == Run(t.name);
            }
          }
          FinishedIsResolved(cache, roots);
          BoundedDooms(cache, roots);
          break;
        }
        assert exists t :: t in names && t !in Settled(s0) && t in Settled(s2);
      }
    }
  }

  /** A whole run: the requested targets one after the other, then everything they lead to. */
  method BuildTaskData(cache: DataCache, requested: seq<Name>, allowIncomplete: bool) returns (td: TaskData)
    requires cache.Complete()
    ensures fresh(td) && td.allowIncomplete == allowIncomplete
    ensures forall n :: n in requested ==> td.Answered(cache, n)
    ensures forall t :: t in td.Lists() ==> Finished(cache, allowIncomplete, td.View(), t)
    ensures td.Resolved(cache) && td.OnlyDoomedFail(cache)
    ensures Explored(cache, Targets(SetOf(requested), {}), td.View(), SetOf(td.seenFns))
    ensures td.Consistent(cache, Targets(SetOf(requested), {}))
  {
    hide TaskData.Consistent, TaskData.Resolved, TaskData.OnlyDoomedFail, Explored, Finished, Targets, Combined, FailedTargets;
    ghost var roots := Targets(SetOf(requested), {});
    td := new TaskData(allowIncomplete);
    for i := 0 to |requested|
      invariant fresh(td) && td.allowIncomplete == allowIncomplete
      invariant td.Consistent(cache, roots)
      invariant forall k :: 0 <= k < i ==> cache.ignored(requested[k]) || Build(requested[k]) in Settled(td.View())
    {
      ghost var s0 := td.View();
      assert requested[i] in SetOf(requested);
      td.AddProvider(cache, roots, requested[i]);
      AdvancesSettled(s0, td.View(), cache.Mentioned() + {Build(requested[i])});
    }
    td.AddUnresolved(cache, roots);
    forall n | n in requested ensures td.Answered(cache, n) {
      var k :| 0 <= k < |requested| && requested[k] == n;
      if !cache.ignored(n) {
        td.SettledIsAnswered(cache, roots, n);
      }
    }
    td.ConsistentExplored(cache, roots);
  }

  /** Nothing more can be done for the target: it is provided, failed or ignored, or (when incomplete
      results are allowed) it is a build target without a candidate. */
  ghost predicate Finished(cache: DataCache, allowIncomplete: bool, s: State, t: Target) {
    || cache.ignored(t.name)
    || t in Settled(s)
    || (allowIncomplete && t.Build? && cache.NoCandidate(t.name, s.failed))
  }

  lemma FinishedMonotone(cache: DataCache, allowIncomplete: bool, s0: State, s1: State, extra: set<Target>, t: Target)
    requires Advances(s0, s1, extra)
    requires Finished(cache, allowIncomplete, s0, t)
    ensures Finished(cache, allowIncomplete, s1, t)
  {}

  lemma StartedFinished(cache: DataCache, allowIncomplete: bool, s0: State, s1: State, extra: set<Target>, t: Target)
    requires Advances(s0, s1, extra)
    requires cache.ignored(t.name) || t in Settled(s0)
    ensures Finished(cache, allowIncomplete, s1, t)
  {}

  lemma AdvancesSettled(s0: State, s1: State, extra: set<Target>)
    requires Advances(s0, s1, extra)
    ensures Settled(s0) <= Settled(s1)
    ensures s0.lists.Keys <= s1.lists.Keys <= s0.lists.Keys + extra
  {}

  lemma AdvancesFailed(s0: State, s1: State, extra: set<Target>)
    requires Advances(s0, s1, extra)
    ensures s0.failed <= s1.failed
  {}

  /** A step about a target that is already known brings in no name beyond the mentioned ones. */
  lemma AdvancesKnown(s0: State, s1: State, s2: State, extra: set<Target>, t: Target)
    requires Advances(s0, s1, extra) && Advances(s1, s2, extra + {t})
    requires t in s0.lists
    ensures Advances(s0, s2, extra)
  {}

  /** fn became a provider of t, and then lists were pruned by the failures this caused. */
  ghost predicate Provided(s0: State, s1: State, t: Target, fn: Fn) {
    && Steady(s0, s1, {t})
    && ListOf(s1, t) == Without(ListOf(Listed(s0, t, fn), t), s1.failed - s0.failed)
  }

  lemma BuildHopeless(cache: DataCache, item: Name, failed: set<Fn>)
    requires !cache.ignored(item) && cache.NoCandidate(item, failed)
    ensures cache.Hopeless(Build(item), failed)
  {
  }

  lemma RunHopeless(cache: DataCache, item: Name, failed: set<Fn>)
    requires !cache.ignored(item)
    requires item in cache.rproviders ==>
               (forall f :: f in cache.rproviders[item].0 ==> f in failed) || cache.rproviders[item].1 > 1
    ensures cache.Hopeless(Run(item), failed)
  {
  }

  lemma ProvidedSteady(s0: State, s1: State, t: Target, fn: Fn)
    requires Steady(Listed(s0, t, fn), s1, {})
    ensures Provided(s0, s1, t, fn)
  {}

  lemma ProvidedNext(candidates: seq<Fn>, i: nat, s0: State, s1: State, t: Target)
    requires i < |candidates| && NoDuplicates(candidates)
    requires candidates[i] !in s0.failed
    requires ListOf(s0, t) == Without(candidates[..i], s0.failed)
    requires Provided(s0, s1, t, candidates[i])
    ensures Steady(s0, s1, {t})
    ensures ListOf(s1, t) == Without(candidates[..i + 1], s1.failed)
  {
    ListedCandidate(candidates, i, s0, Listed(s0, t, candidates[i]), s1, t);
  }

  lemma AllCandidates(candidates: seq<Fn>, eligible: seq<Fn>, s0: State, s1: State, all: map<Target, seq<Fn>>, t: Target)
    requires eligible == Without(candidates, s0.failed)
    requires Exact(s0, all) && Steady(s0, s1, {t})
    requires t in all && all[t] == candidates
    requires ListOf(s1, t) == Without(eligible[..|eligible|], s1.failed)
    ensures ListOf(s1, t) == Without(candidates, s1.failed)
    ensures Exact(s1, all)
  {
    assert eligible[..|eligible|] == eligible;
    WithoutTwice(candidates, s0.failed, s1.failed);
    assert s0.failed + s1.failed == s1.failed;
    ExactSteady(s0, s1, all, {t});
  }

  lemma SpreadExact(g: Edges, s0: State, s1: State, s2: State, seeds: set<Fn>, all: map<Target, seq<Fn>>)
    requires Exact(s0, all)
    requires s1.lists == s0.lists && s1.failed == s0.failed
    requires Spread(g, s1, s2, seeds)
    ensures Exact(s2, all)
  {
    SpreadSteady(g, s1, s2, seeds);
    ExactSteady(s1, s2, all, {});
  }

  lemma ListedSettles(s: State, t: Target, fn: Fn)
    ensures t in Settled(Listed(s, t, fn))
    ensures Advances(s, Listed(s, t, fn), {t})
  {}

  lemma AdvancesRefl(s: State, extra: set<Target>)
    ensures Advances(s, s, extra)
  {}

  lemma AdvancesThrough(s0: State, s1: State, s2: State, extra: set<Target>, t: Target)
    requires Advances(s0, s1, {t}) && Advances(s1, s2, extra)
    ensures Advances(s0, s2, extra + {t})
    ensures t in Settled(s1) ==> t in Settled(s2)
  {}

  lemma GoneAdvances(s0: State, s1: State, s2: State, t: Target)
    requires s1 == s0.(gone := s0.gone + {t}) && Advances(s1, s2, {})
    ensures Advances(s0, s2, {}) && t in Settled(s2)
  {
    assert t in Settled(s1);
    assert Settled(s0) <= Settled(s1);
  }

  /** The tables record, for every seen file, what its recipe says. */
  ghost predicate TablesRecord(seen: set<Fn>, depIds: map<Fn, seq<Name>>, rdepIds: map<Fn, seq<Name>>,
                               entries: map<(Fn, Task), TaskEntry>, cache: DataCache) {
    && depIds.Keys == seen && rdepIds.Keys == seen
    && (forall tid :: tid in entries ==> tid.0 in seen)
    && (forall f :: f in seen ==> FileRecorded(f, depIds, rdepIds, entries, cache))
  }

  ghost predicate FileRecorded(f: Fn, depIds: map<Fn, seq<Name>>, rdepIds: map<Fn, seq<Name>>,
                               entries: map<(Fn, Task), TaskEntry>, cache: DataCache) {
    && f in cache.tasks && f in cache.deps && f in cache.rdeps
    && f in depIds && SetOf(depIds[f]) == SetOf(cache.deps[f])
    && f in rdepIds && SetOf(rdepIds[f]) == SetOf(cache.rdeps[f])
    && TasksRecorded(entries, f, cache.tasks[f])
  }

  /** Exactly these entries are recorded for the file. */
  ghost predicate TasksRecorded(entries: map<(Fn, Task), TaskEntry>, fn: Fn, tasks: seq<(Task, TaskEntry)>) {
    forall tid: (Fn, Task) :: tid.0 == fn ==>
      && (tid in entries <==> tid in EntriesOf(fn, tasks))
      && (tid in entries ==> entries[tid] == EntriesOf(fn, tasks)[tid])
  }

  /** The entries of all other files are as before. */
  ghost predicate OthersKept(entries0: map<(Fn, Task), TaskEntry>, entries: map<(Fn, Task), TaskEntry>, fn: Fn) {
    forall tid: (Fn, Task) :: tid.0 != fn ==>
      (tid in entries <==> tid in entries0) && (tid in entries ==> entries[tid] == entries0[tid])
  }

  lemma NothingRecorded(entries: map<(Fn, Task), TaskEntry>, fn: Fn, tasks: seq<(Task, TaskEntry)>)
    requires tasks == [] && forall tid :: tid in entries ==> tid.0 != fn
    ensures TasksRecorded(entries, fn, tasks) && OthersKept(entries, entries, fn)
  {
  }

  lemma RecordOne(entries0: map<(Fn, Task), TaskEntry>, entries: map<(Fn, Task), TaskEntry>, fn: Fn,
                  tasks: seq<(Task, TaskEntry)>, i: nat)
    requires i < |tasks| && TasksRecorded(entries, fn, tasks[..i]) && OthersKept(entries0, entries, fn)
    ensures var entries' := entries[(fn, tasks[i].0) := tasks[i].1];
      TasksRecorded(entries', fn, tasks[..i + 1]) && OthersKept(entries0, entries', fn)
  {
    assert tasks[..i + 1][..i] == tasks[..i];
  }

  lemma TablesAdd(seen: set<Fn>, depIds: map<Fn, seq<Name>>, rdepIds: map<Fn, seq<Name>>,
                  entries: map<(Fn, Task), TaskEntry>, cache: DataCache,
                  fn: Fn, ids: seq<Name>, rids: seq<Name>, entries': map<(Fn, Task), TaskEntry>)
    requires TablesRecord(seen, depIds, rdepIds, entries, cache)
    requires fn in cache.tasks && cache.Complete()
    requires SetOf(ids) == SetOf(cache.deps[fn]) && SetOf(rids) == SetOf(cache.rdeps[fn])
    requires fn !in seen && OthersKept(entries, entries', fn) && TasksRecorded(entries', fn, cache.tasks[fn])
    ensures TablesRecord(seen + {fn}, depIds[fn := ids], rdepIds[fn := rids], entries', cache)
  {
    forall f | f in seen + {fn} ensures FileRecorded(f, depIds[fn := ids], rdepIds[fn := rids], entries', cache) {
      assert f in seen ==> FileRecorded(f, depIds, rdepIds, entries, cache);
    }
  }

  lemma TablesKeys(seen: set<Fn>, depIds: map<Fn, seq<Name>>, rdepIds: map<Fn, seq<Name>>,
                   entries: map<(Fn, Task), TaskEntry>, cache: DataCache)
    requires TablesRecord(seen, depIds, rdepIds, entries, cache)
    ensures depIds.Keys == seen && rdepIds.Keys == seen
    ensures forall tid :: tid in entries ==> tid.0 in seen
  {}

  lemma AskedIsMentioned(cache: DataCache, fn: Fn, s0: State, s1: State)
    requires fn in cache.tasks && Advances(s0, s1, cache.AskedBy(fn))
    ensures Advances(s0, s1, cache.Mentioned())
  {
    hide DataCache.AskedBy;
  }

  /** A candidate was added whose targets are now known. */
  lemma ExploredCandidate(cache: DataCache, roots: set<Target>, g: Edges, s0: State, s1: State, seen: set<Fn>, fn: Fn,
                          t: Target, doomed: bool)
    requires Explored(cache, roots, s0, seen) && FileAdded(g, s0, s1, fn, doomed) && Advances(s0, s1, cache.AskedBy(fn))
    requires cache.TaskTargets(fn) <= s1.lists.Keys
    requires Wanted(roots, s0, t) && t in cache.Candidates() && fn in cache.Candidates()[t]
    ensures Explored(cache, roots, s1, seen + {fn})
  {
    hide Explored, FileAdded, Wanted, DataCache.TaskTargets, DataCache.AskedBy, DataCache.Candidates;
    ExploredFileAdded(cache, roots, g, s0, s1, seen, fn, t, doomed);
  }

  lemma AskedDependency(cache: DataCache, fn: Fn, n: Name)
    ensures fn in cache.deps && n in SetOf(cache.deps[fn]) ==> Build(n) in cache.AskedBy(fn)
    ensures fn in cache.rdeps && n in SetOf(cache.rdeps[fn]) ==> Run(n) in cache.AskedBy(fn)
  {
    hide DataCache.TaskTargets;
  }

  lemma NotedFileAdded(g: Edges, s0: State, s1: State, s2: State, mentioned: set<Target>, fn: Fn)
    requires Noted(s0, s1, mentioned)
    ensures Spread(g, s1, s2, {fn}) ==> FileAdded(g, s0, s2, fn, true)
    ensures s1 == s2 ==> FileAdded(g, s0, s2, fn, false)
  {}

  lemma NeedsGoneMeaning(cache: DataCache, fn: Fn, gone: set<Target>, ids: seq<Name>, rids: seq<Name>)
    requires fn in cache.deps && fn in cache.rdeps
    requires SetOf(ids) == SetOf(cache.deps[fn]) && SetOf(rids) == SetOf(cache.rdeps[fn])
    ensures cache.NeedsGone(fn, gone) <==>
              (exists n :: n in SetOf(ids) && Build(n) in gone) || (exists n :: n in SetOf(rids) && Run(n) in gone)
  {
    if n :| n in SetOf(ids) && Build(n) in gone {
      assert n in SetOf(cache.deps[fn]);
    }
    if n :| n in SetOf(rids) && Run(n) in gone {
      assert n in SetOf(cache.rdeps[fn]);
    }
    if cache.NeedsGone(fn, gone) {
      if n :| n in cache.deps[fn] && Build(n) in gone {
        assert n in SetOf(cache.deps[fn]) && n in SetOf(ids);
      } else {
        var n :| n in cache.rdeps[fn] && Run(n) in gone;
        assert n in SetOf(cache.rdeps[fn]) && n in SetOf(rids);
      }
    }
  }

  lemma TablesFile(seen: set<Fn>, depIds: map<Fn, seq<Name>>, rdepIds: map<Fn, seq<Name>>,
                   entries: map<(Fn, Task), TaskEntry>, cache: DataCache, fn: Fn)
    requires TablesRecord(seen, depIds, rdepIds, entries, cache)
    requires fn in seen
    ensures FileRecorded(fn, depIds, rdepIds, entries, cache)
  {}

  lemma NotedKeeps(s0: State, s1: State, mentioned: set<Target>)
    requires Noted(s0, s1, mentioned)
    ensures s0.lists.Keys <= s1.lists.Keys && s1.gone == s0.gone
  {}

  lemma NotedAdvances(s0: State, s1: State, mentioned: set<Target>)
    requires s0 == s1 || Noted(s0, s1, mentioned)
    ensures Advances(s0, s1, mentioned)
  {}

  lemma AdvancesTransitive(s0: State, s1: State, s2: State, extra: set<Target>)
    requires Advances(s0, s1, extra)
    requires Advances(s1, s2, extra) || Advances(s1, s2, {})
    ensures Advances(s0, s2, extra)
  {}

  lemma NotedSound(s0: State, s1: State, mentioned: set<Target>, seen: set<Fn>, depIds: map<Fn, seq<Name>>,
                   rdepIds: map<Fn, seq<Name>>, unready: set<Fn>)
    requires Noted(s0, s1, mentioned)
    requires Sound(s0, seen, {}, depIds, rdepIds, unready)
    ensures Sound(s1, seen, {}, depIds, rdepIds, unready)
  {
    SoundExtends(s0, s1, seen, {}, depIds, rdepIds, unready);
  }

  /** Empty tables are consistent with any cache. */
  lemma NothingKnown(cache: DataCache, roots: set<Target>)
    ensures var s := State(Combined(map[], map[]), SetOf([]), FailedTargets([], []));
      && Sound(s, SetOf([]), {}, map[], map[], {})
      && Exact(s, cache.Candidates()) && Bounded(cache, s) && Explored(cache, roots, s, SetOf([]))
    ensures TablesRecord(SetOf([]), map[], map[], map[], cache)
  {
    BoundedStart(cache, State(Combined(map[], map[]), SetOf([]), FailedTargets([], [])));
    ExploredStart(cache, roots, State(Combined(map[], map[]), SetOf([]), FailedTargets([], [])));
  }

  lemma SetOfNothing<T>(s: seq<T>)
    ensures SetOf(s) <= {} ==> s == []
  {
    if s != [] {
      assert s[0] in SetOf(s);
    }
  }

  lemma SetOfAppend<T>(s: seq<T>, x: T)
    ensures SetOf(s + [x]) == SetOf(s) + {x}
    ensures x in SetOf(s) <==> x in s
  {
  }

  lemma SoundDistinct(s: State, seen: set<Fn>, pending: set<Fn>, depIds: map<Fn, seq<Name>>,
                      rdepIds: map<Fn, seq<Name>>, unready: set<Fn>)
    requires Sound(s, seen, pending, depIds, rdepIds, unready)
    ensures AllDistinct(s.lists) && Clean(s)
  {}

  lemma SoundSeen(s: State, seen: set<Fn>, fn: Fn, depIds: map<Fn, seq<Name>>, rdepIds: map<Fn, seq<Name>>)
    requires Sound(s, seen, {fn}, depIds, rdepIds, {})
    requires fn in seen
    ensures Sound(s, seen, {}, depIds, rdepIds, {})
  {}

  lemma SoundReady(s: State, seen: set<Fn>, fn: Fn, depIds: map<Fn, seq<Name>>, rdepIds: map<Fn, seq<Name>>)
    requires Sound(s, seen, {}, depIds, rdepIds, {fn})
    requires fn in depIds && fn in rdepIds
    requires forall n :: n in depIds[fn] ==> Build(n) in s.lists && Build(n) !in s.gone
    requires forall n :: n in rdepIds[fn] ==> Run(n) in s.lists && Run(n) !in s.gone
    ensures Sound(s, seen, {}, depIds, rdepIds, {})
  {}

  /** More targets are known, all of them from `mentioned`, and nothing else changed. */
  ghost predicate Noted(s0: State, s1: State, mentioned: set<Target>) {
    Extends(s0, s1) && s1.lists.Keys <= s0.lists.Keys + mentioned
  }

  lemma NotedRefl(s: State, mentioned: set<Target>)
    ensures Noted(s, s, mentioned)
  {}

  lemma NotedTransitive(s0: State, s1: State, s2: State, mentioned: set<Target>)
    requires Noted(s0, s1, mentioned) && Noted(s1, s2, mentioned)
    ensures Noted(s0, s2, mentioned)
  {
    ExtendsTransitive(s0, s1, s2);
  }

  lemma NotedOne(s0: State, s1: State, s2: State, mentioned: set<Target>, t: Target)
    requires Noted(s0, s1, mentioned) && Extends(s1, s2)
    requires s2.lists.Keys == s1.lists.Keys + {t} && t in mentioned
    ensures Noted(s0, s2, mentioned)
  {
    ExtendsTransitive(s0, s1, s2);
  }

  lemma TargetsListed(entry: TaskEntry, keys: set<Target>)
    ensures forall k :: 0 <= k < |entry.idepends| ==> Build(entry.idepends[k].0) in TargetsOf(entry)
    ensures forall k :: 0 <= k < |entry.irdepends| ==> Run(entry.irdepends[k].0) in TargetsOf(entry)
    ensures (&& (forall k :: 0 <= k < |entry.idepends| ==> Build(entry.idepends[k].0) in keys)
             && (forall k :: 0 <= k < |entry.irdepends| ==> Run(entry.irdepends[k].0) in keys))
            ==> TargetsOf(entry) <= keys
  {
    forall k | 0 <= k < |entry.idepends| ensures entry.idepends[k].0 in NamesOf(entry.idepends) {
      assert entry.idepends[k] in entry.idepends;
    }
    forall k | 0 <= k < |entry.irdepends| ensures entry.irdepends[k].0 in NamesOf(entry.irdepends) {
      assert entry.irdepends[k] in entry.irdepends;
    }
  }

  lemma RecordedAsks(cache: DataCache, entries: map<(Fn, Task), TaskEntry>, f: Fn, task: Task, n: Name)
    requires f in cache.tasks && TasksRecorded(entries, f, cache.tasks[f]) && (f, task) in entries
    ensures n in NamesOf(entries[(f, task)].idepends) ==> cache.Asks(f, Build(n))
    ensures n in NamesOf(entries[(f, task)].irdepends) ==> cache.Asks(f, Run(n))
  {
    hide NamesOf, DataCache.AskedBy;
    EntriesListed(f, cache.tasks[f], (f, task));
    var i :| 0 <= i < |cache.tasks[f]| && cache.tasks[f][i].1 == EntriesOf(f, cache.tasks[f])[(f, task)];
    AskedInTask(cache, f, i);
  }

  lemma AskedInTask(cache: DataCache, fn: Fn, i: nat)
    requires fn in cache.tasks && i < |cache.tasks[fn]|
    ensures TargetsOf(cache.tasks[fn][i].1) <= cache.AskedBy(fn)
  {
    hide TargetsOf;
  }

  lemma {:induction false} WithoutFromFront(s: seq<Fn>, dead: set<Fn>)
    requires s != []
    ensures Without(s, dead) == (if s[0] in dead then [] else [s[0]]) + Without(s[1..], dead)
  {
    if |s| > 1 {
      var init := s[..|s| - 1];
      WithoutFromFront(init, dead);
      assert init[1..] == s[1..][..|s| - 2];
      assert s[1..][|s| - 2] == s[|s| - 1];
    }
  }

  lemma {:induction false} RemoveFirstIsWithout(s: seq<Fn>, x: Fn)
    requires NoDuplicates(s)
    ensures RemoveFirst(s, x) == Without(s, {x})
  {
    hide Without;
    if s == [] {
      WithoutNothing(s, {x});
    } else {
      WithoutFromFront(s, {x});
      if s[0] == x {
        WithoutNothing(s[1..], {x});
      } else {
        RemoveFirstIsWithout(s[1..], x);
      }
    }
  }
}
