/** Which variables a task depends on, and the hash over their values. */
module BaseHash {
  import opened Options
  import opened SortedNames

  type Var = string
  type Graph = map<Var, set<Var>>
  type Values = map<Var, Option<string>>

  // ---- the dependency closure ----

  /** c holds the direct dependencies of the task and is closed under dependency, whitelisted names aside. */
  ghost predicate ClosedFrom(g: Graph, whitelist: set<Var>, task: Var, c: set<Var>) {
    && (task in g ==> g[task] - whitelist <= c)
    && forall d :: d in c && d in g ==> g[d] - whitelist <= c
  }

  /** s is the least such set. */
  ghost predicate IsClosure(g: Graph, whitelist: set<Var>, task: Var, s: set<Var>) {
    ClosedFrom(g, whitelist, task, s) && forall c :: ClosedFrom(g, whitelist, task, c) ==> s <= c
  }

  /** Every task and every dependency that is not whitelisted has an entry. */
  ghost predicate Covers(g: Graph, whitelist: set<Var>, tasks: seq<Var>) {
    && (forall t :: t in tasks ==> t in g)
    && forall k :: k in g ==> g[k] - whitelist <= g.Keys
  }

  /** The same graph up to whitelisted names has the same closures. */
  ghost predicate SameUpTo(g: Graph, g': Graph, whitelist: set<Var>) {
    g.Keys == g'.Keys && forall k :: k in g ==> g[k] - whitelist == g'[k] - whitelist
  }

  /** A chain of dependencies from the task through names that are not whitelisted. */
  ghost predicate IsChain(g: Graph, whitelist: set<Var>, task: Var, p: seq<Var>) {
    && p != []
    && (forall i :: 0 <= i < |p| ==> p[i] !in whitelist)
    && task in g && p[0] in g[task]
    && forall i :: 0 <= i < |p| - 1 ==> p[i] in g && p[i + 1] in g[p[i]]
  }

  ghost predicate Reaches(g: Graph, whitelist: set<Var>, task: Var, x: Var) {
    exists p :: IsChain(g, whitelist, task, p) && p[|p| - 1] == x
  }

  lemma {:induction false} ChainInClosure(g: Graph, whitelist: set<Var>, task: Var, s: set<Var>, p: seq<Var>)
    requires ClosedFrom(g, whitelist, task, s)
    requires IsChain(g, whitelist, task, p)
    ensures p[|p| - 1] in s
  {
    if |p| == 1 {
      assert p[0] in g[task] - whitelist;
    } else {
      var q := p[..|p| - 1];
      ChainInClosure(g, whitelist, task, s, q);
      assert p[|p| - 1] in g[q[|q| - 1]] - whitelist;
    }
  }

  lemma ChainExtends(g: Graph, whitelist: set<Var>, task: Var, d: Var, x: Var)
    requires Reaches(g, whitelist, task, d)
    requires d in g && x in g[d] && x !in whitelist
    ensures Reaches(g, whitelist, task, x)
  {
    var p :| IsChain(g, whitelist, task, p) && p[|p| - 1] == d;
    var q := p + [x];
    assert IsChain(g, whitelist, task, q) && q[|q| - 1] == x;
  }

  /** The closure is what the task reaches. */
  lemma ClosureIsReachability(g: Graph, whitelist: set<Var>, task: Var, s: set<Var>)
    requires IsClosure(g, whitelist, task, s)
    ensures forall x :: x in s <==> Reaches(g, whitelist, task, x)
  {
    var reached := set x | x in s && Reaches(g, whitelist, task, x);
    assert ClosedFrom(g, whitelist, task, reached) by {
      forall x | task in g && x in g[task] - whitelist ensures x in reached {
        assert IsChain(g, whitelist, task, [x]) && [x][|[x]| - 1] == x;
      }
      forall d, x | d in reached && d in g && x in g[d] - whitelist ensures x in reached {
        ChainExtends(g, whitelist, task, d, x);
      }
    }
    forall x | Reaches(g, whitelist, task, x) ensures x in s {
      var p :| IsChain(g, whitelist, task, p) && p[|p| - 1] == x;
      ChainInClosure(g, whitelist, task, s, p);
    }
  }

  ghost function ReachSet(g: Graph, whitelist: set<Var>, task: Var): set<Var> {
    set x | x in g && Reaches(g, whitelist, task, x)
  }

  lemma ClosureIsReachSet(g: Graph, whitelist: set<Var>, task: Var, s: set<Var>)
    requires IsClosure(g, whitelist, task, s) && s <= g.Keys
    ensures s == ReachSet(g, whitelist, task)
  {
    ClosureIsReachability(g, whitelist, task, s);
  }

  /** The tasks and everything they reach. */
  ghost function Gathered(g: Graph, whitelist: set<Var>, tasks: seq<Var>): set<Var> {
    if tasks == [] then {}
    else
      var last := tasks[|tasks| - 1];
      Gathered(g, whitelist, tasks[..|tasks| - 1]) + {last} + ReachSet(g, whitelist, last)
  }

  // ---- the worklist loops ----

  /** All that the closed sets around the task must hold. */
  ghost predicate WithinClosures(g: Graph, whitelist: set<Var>, task: Var, s: set<Var>) {
    forall c :: ClosedFrom(g, whitelist, task, c) ==> s <= c
  }

  /** One round keeps everything collected inside every closed set. */
  lemma RoundWithinClosures(g: Graph, whitelist: set<Var>, task: Var, seen: set<Var>, next: set<Var>, newdeps: set<Var>)
    requires WithinClosures(g, whitelist, task, seen) && WithinClosures(g, whitelist, task, next)
    requires forall x :: x in newdeps ==> x in whitelist || exists d :: d in next && d in g && x in g[d]
    ensures WithinClosures(g, whitelist, task, seen + next)
    ensures WithinClosures(g, whitelist, task, newdeps - (seen + next) - whitelist)
  {
    forall c | ClosedFrom(g, whitelist, task, c) ensures newdeps - whitelist <= c {
      forall x | x in newdeps - whitelist ensures x in c {
        var d :| d in next && d in g && x in g[d];
        assert d in c && x in g[d] - whitelist;
      }
    }
  }

  /** The tables agree with what `build_dependencies` returns for each name. */
  ghost predicate Tables(deps: Graph, values: Values, recipe: Graph, contents: Values) {
    && deps.Keys == values.Keys && deps.Keys <= recipe.Keys <= contents.Keys
    && forall k :: k in deps ==> deps[k] == recipe[k] && values[k] == contents[k]
  }

  lemma CoversMore(deps0: Graph, values0: Values, deps: Graph, values: Values, recipe: Graph, contents: Values,
                   whitelist: set<Var>, tasks: seq<Var>, task: Var, seen: set<Var>)
    requires Covers(deps0, whitelist, tasks)
    requires deps.Keys == deps0.Keys + {task} + seen
    requires Tables(deps0, values0, recipe, contents) && Tables(deps, values, recipe, contents)
    requires IsClosure(recipe, whitelist, task, seen)
    ensures Covers(deps, whitelist, tasks + [task])
  {
    forall k | k in deps ensures deps[k] - whitelist <= deps.Keys {
      if k in deps0 {
        assert deps0[k] - whitelist <= deps0.Keys;
      } else {
        assert recipe[k] - whitelist <= seen;
      }
    }
  }

  /** `recipe` and `contents` stand for what `build_dependencies` returns for each name. The tables
      filled here hold exactly the tasks and what they reach. */
  method GenerateDependencies(tasks: seq<Var>, recipe: Graph, contents: Values, whitelist: set<Var>)
    returns (deps: Graph, values: Values)
    requires Covers(recipe, whitelist, tasks) && recipe.Keys <= contents.Keys
    ensures Tables(deps, values, recipe, contents)
    ensures Covers(deps, whitelist, tasks)
    ensures deps.Keys == Gathered(recipe, whitelist, tasks)
  {
    hide ReachSet, IsClosure, Covers, Tables, Gathered;
    deps, values := map[], map[];
    NothingGathered(recipe, contents, whitelist);
    for i := 0 to |tasks|
      invariant Tables(deps, values, recipe, contents)
      invariant Covers(deps, whitelist, tasks[..i])
      invariant deps.Keys == Gathered(recipe, whitelist, tasks[..i])
    {
      ghost var deps0, values0, seen := deps, values, {};
      assert tasks[i] in tasks;
      CoversTask(recipe, whitelist, tasks, tasks[i]);
      deps, values, seen := CollectFrom(tasks[i], deps, values, recipe, contents, whitelist);
      ClosureIsReachSet(recipe, whitelist, tasks[i], seen);
      CoversMore(deps0, values0, deps, values, recipe, contents, whitelist, tasks[..i], tasks[i], seen);
      GatheredMore(recipe, whitelist, tasks, i);
      assert tasks[..i + 1] == tasks[..i] + [tasks[i]];
    }
    assert tasks[..|tasks|] == tasks;
  }

  lemma GatheredMore(g: Graph, whitelist: set<Var>, tasks: seq<Var>, i: nat)
    requires i < |tasks|
    ensures Gathered(g, whitelist, tasks[..i + 1]) == Gathered(g, whitelist, tasks[..i]) + {tasks[i]} + ReachSet(g, whitelist, tasks[i])
  {
    assert tasks[..i + 1][..i] == tasks[..i];
  }

  lemma NothingGathered(recipe: Graph, contents: Values, whitelist: set<Var>)
    requires recipe.Keys <= contents.Keys
    ensures Tables(map[], map[], recipe, contents) && Covers(map[], whitelist, []) && Gathered(recipe, whitelist, []) == {}
  {
  }

  /** What the loop over rounds keeps. */
  ghost predicate Worklist(g: Graph, whitelist: set<Var>, task: Var, found: set<Var>, newdeps: set<Var>) {
    && task in g
    && newdeps !! found && found <= g.Keys && newdeps - whitelist <= g.Keys
    && WithinClosures(g, whitelist, task, found)
    && WithinClosures(g, whitelist, task, newdeps - whitelist)
    && g[task] - whitelist <= found + newdeps
    && forall d :: d in found ==> g[d] - whitelist <= found + newdeps
  }

  /** What one round has fetched: the dependencies of the names looked up, whitelisted names possibly left out. */
  ghost predicate Fetched(g: Graph, whitelist: set<Var>, next: set<Var>, fetched: set<Var>) {
    next <= g.Keys && forall x :: x !in whitelist ==> (x in fetched <==> exists d :: d in next && x in g[d])
  }

  lemma WorklistStart(g: Graph, whitelist: set<Var>, task: Var, newdeps: set<Var>)
    requires Covers(g, whitelist, []) && task in g
    requires newdeps - whitelist == g[task] - whitelist
    ensures Worklist(g, whitelist, task, {}, newdeps)
  {}

  lemma WorklistNext(g: Graph, whitelist: set<Var>, task: Var, found: set<Var>, newdeps: set<Var>, fetched: set<Var>)
    requires Covers(g, whitelist, [])
    requires Worklist(g, whitelist, task, found, newdeps)
    requires Fetched(g, whitelist, newdeps - whitelist, fetched)
    ensures Worklist(g, whitelist, task, found + (newdeps - whitelist), fetched - (found + (newdeps - whitelist)))
  {
    var next := newdeps - whitelist;
    RoundWithinClosures(g, whitelist, task, found, next, fetched);
    forall x | x in fetched - whitelist ensures x in g {
      var d :| d in next && x in g[d];
      assert g[d] - whitelist <= g.Keys;
    }
    forall d | d in next ensures g[d] - whitelist <= fetched {}
  }

  lemma WorklistShrinks(g: Graph, whitelist: set<Var>, task: Var, found: set<Var>, newdeps: set<Var>)
    requires Worklist(g, whitelist, task, found, newdeps)
    ensures newdeps - whitelist <= g.Keys
    ensures newdeps - whitelist != {} ==> g.Keys - (found + (newdeps - whitelist)) < g.Keys - found
    ensures found + {} == found
  {
    if x :| x in newdeps - whitelist {
      assert x in g.Keys - found;
    }
  }

  lemma WorklistEnd(g: Graph, whitelist: set<Var>, task: Var, found: set<Var>)
    requires Worklist(g, whitelist, task, found, {})
    ensures IsClosure(g, whitelist, task, found)
    ensures found <= g.Keys
  {}

  /** The part of the loop for one task. */
  method CollectFrom(task: Var, deps0: Graph, values0: Values, recipe: Graph, contents: Values, whitelist: set<Var>)
    returns (deps: Graph, values: Values, ghost seen: set<Var>)
    requires Covers(recipe, whitelist, []) && task in recipe
    requires Tables(deps0, values0, recipe, contents)
    ensures IsClosure(recipe, whitelist, task, seen) && seen <= recipe.Keys
    ensures deps.Keys == deps0.Keys + {task} + seen
    ensures Tables(deps, values, recipe, contents)
  {
    deps, values := deps0[task := recipe[task]], values0[task := contents[task]];
    var newdeps := deps[task];
    var found := {};
    WorklistStart(recipe, whitelist, task, newdeps);
    assert Tables(deps, values, recipe, contents);
    hide IsClosure, Worklist, Tables, Covers, Fetched;
    while newdeps != {}
      invariant Tables(deps, values, recipe, contents)
      invariant deps.Keys == deps0.Keys + {task} + found
      invariant Worklist(recipe, whitelist, task, found, newdeps)
      decreases recipe.Keys - found, newdeps != {}
    {
      var nextdeps := newdeps - whitelist;
      WorklistShrinks(recipe, whitelist, task, found, newdeps);
      ghost var found0, newdeps0 := found, newdeps;
      found := found + nextdeps;
      deps, values, newdeps := CollectRound(nextdeps, deps, values, recipe, contents, whitelist);
      WorklistNext(recipe, whitelist, task, found0, newdeps0, newdeps);
      newdeps := newdeps - found;
      UnionRegroup(deps0.Keys + {task}, found0, nextdeps);
    }
    WorklistEnd(recipe, whitelist, task, found);
    seen := found;
  }

  lemma UnionRegroup(a: set<Var>, b: set<Var>, c: set<Var>)
    ensures a + b + c == a + (b + c)
  {}

  /** The inner loop: looks up the names of one round and collects what they depend on. */
  method CollectRound(nextdeps: set<Var>, deps0: Graph, values0: Values, recipe: Graph, contents: Values, whitelist: set<Var>)
    returns (deps: Graph, values: Values, newdeps: set<Var>)
    requires Tables(deps0, values0, recipe, contents) && nextdeps <= recipe.Keys
    ensures Tables(deps, values, recipe, contents)
    ensures deps.Keys == deps0.Keys + nextdeps
    ensures Fetched(recipe, whitelist, nextdeps, newdeps)
    ensures nextdeps == {} ==> newdeps == {}
  {
    deps, values, newdeps := deps0, values0, {};
    var todo := nextdeps;
    while todo != {}
      invariant todo <= nextdeps
      invariant Tables(deps, values, recipe, contents)
      invariant deps.Keys == deps0.Keys + (nextdeps - todo)
      invariant forall x :: x in newdeps <==> exists d :: d in nextdeps - todo && x in recipe[d]
      decreases todo
    {
      var dep :| dep in todo;
      todo := todo - {dep};
      if dep !in deps {
        deps, values := deps[dep := recipe[dep]], values[dep := contents[dep]];
      }
      newdeps := newdeps + deps[dep];
    }
  }

  // ---- the hash ----

  function Text(value: Option<string>): string {
    if value.Some? then value.value else ""
  }

  /** The string that is hashed: the value of the task, then each name followed by its value. */
  ghost function BaseData(task: Var, alldeps: seq<Var>, lookup: Values): string
    requires task in lookup && forall d :: d in alldeps ==> d in lookup
  {
    if alldeps == [] then Text(lookup[task])
    else
      var last := alldeps[|alldeps| - 1];
      BaseData(task, alldeps[..|alldeps| - 1], lookup) + last + Text(lookup[last])
  }

  /** The name of a task across recipe files. */
  function TaskId(fn: string, task: Var): string {
    fn + ":" + task
  }

  /** What the parser keeps for one task: its sorted dependencies and its base hash. */
  ghost predicate Hashed(g: Graph, whitelist: set<Var>, lookup: Values, fn: string, sha: string -> string,
                         task: Var, taskdeps: map<Var, seq<Var>>, basehash: map<string, string>) {
    && task in lookup && ReachSet(g, whitelist, task) <= lookup.Keys
    && task in taskdeps && taskdeps[task] == Sorted(ReachSet(g, whitelist, task))
    && TaskId(fn, task) in basehash
    && basehash[TaskId(fn, task)] == sha(BaseData(task, taskdeps[task], lookup))
  }

  /** Sets in `gendeps` lose their whitelisted members as the walk meets them; no task sees a
      difference because of what another task removed. */
  method GenerateDependencyHash(tasks: seq<Var>, gendeps0: Graph, lookup: Values, whitelist: set<Var>, fn: string,
                                sha: string -> string)
    returns (gendeps: Graph, taskdeps: map<Var, seq<Var>>, basehash: map<string, string>)
    requires Covers(gendeps0, whitelist, tasks) && gendeps0.Keys <= lookup.Keys
    ensures SameUpTo(gendeps0, gendeps, whitelist)
    ensures taskdeps.Keys == (set t | t in tasks)
    ensures basehash.Keys == (set t | t in tasks :: TaskId(fn, t))
    ensures forall t :: t in tasks ==> Hashed(gendeps0, whitelist, lookup, fn, sha, t, taskdeps, basehash)
  {
    hide SameUpTo, Covers, ReachSet, Hashed, BaseData;
    gendeps, taskdeps, basehash := gendeps0, map[], map[];
    SameUpToRefl(gendeps0, whitelist);
    for i := 0 to |tasks|
      invariant SameUpTo(gendeps0, gendeps, whitelist)
      invariant taskdeps.Keys == (set t | t in tasks[..i])
      invariant basehash.Keys == (set t | t in tasks[..i] :: TaskId(fn, t))
      invariant forall t :: t in tasks[..i] ==> Hashed(gendeps0, whitelist, lookup, fn, sha, t, taskdeps, basehash)
    {
      var task := tasks[i];
      CoversTask(gendeps0, whitelist, tasks, task);
      ghost var taskdeps0, basehash0 := taskdeps, basehash;
      var alldeps;
      gendeps, alldeps := CollectHashed(task, gendeps, gendeps0, whitelist);
      var data := HashInput(task, alldeps, lookup);
      var k := TaskId(fn, task);
      basehash := basehash[k := sha(data)];
      taskdeps := taskdeps[task := alldeps];
      assert tasks[..i + 1] == tasks[..i] + [task];
      forall t | t in tasks[..i + 1]
        ensures Hashed(gendeps0, whitelist, lookup, fn, sha, t, taskdeps, basehash)
      {
        HashedStep(gendeps0, whitelist, lookup, fn, sha, t, task, taskdeps0, basehash0, alldeps);
      }
    }
    assert tasks[..|tasks|] == tasks;
  }

  lemma KeysDiffer(fn: string, t: Var, t': Var)
    requires t != t'
    ensures TaskId(fn, t) != TaskId(fn, t')
  {
    var p := fn + ":";
    assert (p + t)[|p|..] == t && (p + t')[|p|..] == t';
  }

  /** Recording one task leaves the record of every other task alone. */
  lemma HashedStep(g: Graph, whitelist: set<Var>, lookup: Values, fn: string, sha: string -> string, t: Var, task: Var,
                   taskdeps: map<Var, seq<Var>>, basehash: map<string, string>, alldeps: seq<Var>)
    requires task in g && g.Keys <= lookup.Keys
    requires ReachSet(g, whitelist, task) <= g.Keys && alldeps == Sorted(ReachSet(g, whitelist, task))
    requires t != task ==> Hashed(g, whitelist, lookup, fn, sha, t, taskdeps, basehash)
    ensures Hashed(g, whitelist, lookup, fn, sha, t, taskdeps[task := alldeps],
                   basehash[TaskId(fn, task) := sha(BaseData(task, alldeps, lookup))])
  {
    if t != task {
      KeysDiffer(fn, t, task);
    }
  }

  lemma CoversTask(g: Graph, whitelist: set<Var>, tasks: seq<Var>, task: Var)
    requires Covers(g, whitelist, tasks) && task in tasks
    ensures Covers(g, whitelist, []) && task in g
  {}

  lemma SameUpToRefl(g: Graph, whitelist: set<Var>)
    ensures SameUpTo(g, g, whitelist)
  {}

  lemma SameUpToSubtract(g: Graph, g': Graph, whitelist: set<Var>, k: Var)
    requires SameUpTo(g, g', whitelist) && k in g'
    ensures SameUpTo(g, g'[k := g'[k] - whitelist], whitelist)
    ensures g'[k] - whitelist == g[k] - whitelist
  {}

  /** The worklist of one task, with the subtraction in place. */
  method CollectHashed(task: Var, gendeps0: Graph, ghost g: Graph, whitelist: set<Var>)
    returns (gendeps: Graph, alldeps: seq<Var>)
    requires SameUpTo(g, gendeps0, whitelist)
    requires Covers(g, whitelist, []) && task in g
    ensures SameUpTo(g, gendeps, whitelist)
    ensures ReachSet(g, whitelist, task) <= g.Keys
    ensures alldeps == Sorted(ReachSet(g, whitelist, task))
  {
    SameUpToSubtract(g, gendeps0, whitelist, task);
    gendeps := gendeps0[task := gendeps0[task] - whitelist];
    var newdeps := gendeps[task];
    var found := {};
    WorklistStart(g, whitelist, task, newdeps);
    hide IsClosure, Worklist, Covers, Fetched, SameUpTo, ReachSet;
    while newdeps != {}
      invariant SameUpTo(g, gendeps, whitelist)
      invariant Worklist(g, whitelist, task, found, newdeps)
      invariant newdeps !! whitelist
      decreases g.Keys - found, newdeps != {}
    {
      var nextdeps := newdeps;
      assert newdeps - whitelist == newdeps;
      WorklistShrinks(g, whitelist, task, found, newdeps);
      ghost var found0, newdeps0 := found, newdeps;
      found := found + nextdeps;
      gendeps, newdeps := HashedRound(nextdeps, gendeps, g, whitelist);
      WorklistNext(g, whitelist, task, found0, newdeps0, newdeps);
      newdeps := newdeps - found;
    }
    WorklistEnd(g, whitelist, task, found);
    ClosureIsReachSet(g, whitelist, task, found);
    alldeps := Sorted(found);
  }

  method HashedRound(nextdeps: set<Var>, gendeps0: Graph, ghost g: Graph, whitelist: set<Var>)
    returns (gendeps: Graph, newdeps: set<Var>)
    requires SameUpTo(g, gendeps0, whitelist) && nextdeps <= g.Keys && nextdeps !! whitelist
    ensures SameUpTo(g, gendeps, whitelist)
    ensures Fetched(g, whitelist, nextdeps, newdeps) && newdeps !! whitelist
    ensures nextdeps == {} ==> newdeps == {}
  {
    gendeps, newdeps := gendeps0, {};
    var todo := nextdeps;
    while todo != {}
      invariant todo <= nextdeps
      invariant SameUpTo(g, gendeps, whitelist)
      invariant forall x :: x in newdeps <==> x !in whitelist && exists d :: d in nextdeps - todo && x in g[d]
      decreases todo
    {
      var dep :| dep in todo;
      todo := todo - {dep};
      if dep in whitelist {
        continue;
      }
      SameUpToSubtract(g, gendeps, whitelist, dep);
      gendeps := gendeps[dep := gendeps[dep] - whitelist];
      newdeps := newdeps + gendeps[dep];
    }
  }

  /** The loop that appends names and values to the string. */
  method HashInput(task: Var, alldeps: seq<Var>, lookup: Values) returns (data: string)
    requires task in lookup && forall d :: d in alldeps ==> d in lookup
    ensures data == BaseData(task, alldeps, lookup)
  {
    data := if lookup[task].None? then "" else lookup[task].value;
    for i := 0 to |alldeps|
      invariant data == BaseData(task, alldeps[..i], lookup)
    {
      assert alldeps[..i + 1][..i] == alldeps[..i];
      var dep := alldeps[i];
      data := data + dep;
      var v := lookup[dep];
      if v.Some? {
        data := data + v.value;
      }
    }
    assert alldeps[..|alldeps|] == alldeps;
  }

  // ---- what the hash notices ----

  /** The same values, but for one variable. */
  ghost predicate DifferAt(a: Values, b: Values, d: Var) {
    a.Keys == b.Keys && forall x :: x in a && x != d ==> a[x] == b[x]
  }

  ghost predicate Looked(task: Var, alldeps: seq<Var>, lookup: Values) {
    task in lookup && forall x :: x in alldeps ==> x in lookup
  }

  /** A longer or shorter value makes a longer or shorter text. */
  lemma {:induction false} LongerValue(task: Var, alldeps: seq<Var>, a: Values, b: Values, d: Var)
    requires Looked(task, alldeps, a) && DifferAt(a, b, d) && d in a
    requires |Text(a[d])| <= |Text(b[d])|
    ensures |BaseData(task, alldeps, a)| <= |BaseData(task, alldeps, b)|
    ensures (d == task || d in alldeps) && |Text(a[d])| < |Text(b[d])| ==>
              |BaseData(task, alldeps, a)| < |BaseData(task, alldeps, b)|
  {
    if alldeps != [] {
      var n := |alldeps| - 1;
      LongerValue(task, alldeps[..n], a, b, d);
      assert alldeps == alldeps[..n] + [alldeps[n]];
    }
  }

  lemma SplitEqual(p: string, q: string, l: string, t: string, u: string)
    requires |p| == |q| && p + l + t == q + l + u
    ensures p == q && t == u
  {
    assert p == (p + l + t)[..|p|] && q == (q + l + u)[..|q|];
    assert t == (p + l + t)[|p + l|..] && u == (q + l + u)[|q + l|..];
  }

  /** A value of the same length shows at its place. */
  lemma {:induction false} SameLengthValue(task: Var, alldeps: seq<Var>, a: Values, b: Values, d: Var)
    requires Looked(task, alldeps, a) && DifferAt(a, b, d) && (d == task || d in alldeps)
    requires |Text(a[d])| == |Text(b[d])|
    requires BaseData(task, alldeps, a) == BaseData(task, alldeps, b)
    ensures Text(a[d]) == Text(b[d])
  {
    if alldeps != [] {
      var n := |alldeps| - 1;
      var init, last := alldeps[..n], alldeps[n];
      assert alldeps == init + [last];
      LongerValue(task, init, a, b, d);
      LongerValue(task, init, b, a, d);
      SplitEqual(BaseData(task, init, a), BaseData(task, init, b), last, Text(a[last]), Text(b[last]));
      if last != d {
        SameLengthValue(task, init, a, b, d);
      }
    }
  }

  /** Changing the value of the task or of one variable it reaches, the rest alike, changes the hashed
      text, and an unset variable counts as an empty one. */
  lemma ReachedValueCounts(g: Graph, whitelist: set<Var>, task: Var, a: Values, b: Values, d: Var)
    requires ReachSet(g, whitelist, task) + {task} <= a.Keys && DifferAt(a, b, d)
    requires d == task || (Reaches(g, whitelist, task, d) && d in g)
    ensures var alldeps := Sorted(ReachSet(g, whitelist, task));
      BaseData(task, alldeps, a) == BaseData(task, alldeps, b) <==> Text(a[d]) == Text(b[d])
  {
    hide Reaches, Sorted, BaseData;
    var alldeps := Sorted(ReachSet(g, whitelist, task));
    if |Text(a[d])| < |Text(b[d])| {
      LongerValue(task, alldeps, a, b, d);
    } else if |Text(b[d])| < |Text(a[d])| {
      LongerValue(task, alldeps, b, a, d);
    } else if Text(a[d]) == Text(b[d]) {
      SameTexts(task, alldeps, a, b);
    } else if BaseData(task, alldeps, a) == BaseData(task, alldeps, b) {
      SameLengthValue(task, alldeps, a, b, d);
    }
  }

  lemma {:induction false} SameTexts(task: Var, alldeps: seq<Var>, a: Values, b: Values)
    requires Looked(task, alldeps, a) && a.Keys == b.Keys
    requires forall x :: x in a ==> Text(a[x]) == Text(b[x])
    ensures BaseData(task, alldeps, a) == BaseData(task, alldeps, b)
  {
    if alldeps != [] {
      SameTexts(task, alldeps[..|alldeps| - 1], a, b);
    }
  }
}
