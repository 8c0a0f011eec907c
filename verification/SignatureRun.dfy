/** A whole run of the signature generator: every recipe parsed, every task hashed, every dump recomputed. */
module SignatureRun {
  import opened Options
  import opened SortedNames
  import opened BaseHash
  import opened TaskHash

  datatype Recipe = Recipe(fn: string, tasks: seq<Var>, graph: Graph, contents: Values)

  /** What the run queue knows of a task. */
  datatype Job = Job(fn: string, task: Var, deps: seq<Tid>, keep: Tid -> bool, checksums: seq<(string, string)>,
                     nostamp: bool, uuid: string, taintFile: Option<string>)

  // ---- parsing ----

  /** No two files share a name, and no two tasks of different files share an identifier. */
  ghost predicate Separate(recipes: seq<Recipe>) {
    forall i, j :: 0 <= i < j < |recipes| ==> Apart(recipes[i], recipes[j])
  }

  ghost predicate Apart(r: Recipe, q: Recipe) {
    r.fn != q.fn && forall t, u :: t in r.tasks && u in q.tasks ==> TaskId(r.fn, t) != TaskId(q.fn, u)
  }

  ghost predicate Parsable(r: Recipe, whitelist: set<Var>) {
    Covers(r.graph, whitelist, r.tasks) && r.graph.Keys <= r.contents.Keys
  }

  /** Every task of the file is recorded, with the dependencies it reaches and its base hash. */
  ghost predicate FileParsed(g: SignatureGenerator, r: Recipe)
    reads g
  {
    && r.fn in g.taskdeps && r.fn in g.gendeps && r.fn in g.lookupcache
    && AllParsed(r.fn, r.tasks, r.graph, g.basewhitelist, g.sha, g.taskdeps[r.fn], g.gendeps[r.fn], g.lookupcache[r.fn], g.basehash)
  }

  /** The records of a file stay as long as the base hashes of its tasks do. */
  lemma AllParsedKept(r: Recipe, whitelist: set<Var>, sha: string -> string, td: map<Var, seq<Var>>, g: Graph,
                      lookup: Values, before: map<Tid, string>, after: map<Tid, string>)
    requires AllParsed(r.fn, r.tasks, r.graph, whitelist, sha, td, g, lookup, before)
    requires forall t :: t in r.tasks && TaskId(r.fn, t) in before ==>
               TaskId(r.fn, t) in after && after[TaskId(r.fn, t)] == before[TaskId(r.fn, t)]
    ensures AllParsed(r.fn, r.tasks, r.graph, whitelist, sha, td, g, lookup, after)
  {
    hide BaseData, Ascending, Reaches, TaskId;
    forall t | t in r.tasks ensures ParsedIn(r.fn, t, whitelist, sha, td, g, lookup, after) {
      assert ParsedIn(r.fn, t, whitelist, sha, td, g, lookup, before);
    }
  }

  method ParseAll(g: SignatureGenerator, recipes: seq<Recipe>)
    requires Separate(recipes) && forall r :: r in recipes ==> Parsable(r, g.basewhitelist)
    modifies g`basehash, g`taskdeps, g`gendeps, g`lookupcache
    ensures forall r :: r in recipes ==> FileParsed(g, r)
  {
    hide AllParsed, OthersKept, Covers, Apart;
    for i := 0 to |recipes|
      invariant forall k :: 0 <= k < i ==> FileParsed(g, recipes[k])
    {
      var q := recipes[i];
      assert q in recipes;
      label before:
      g.BuildData(q.fn, q.tasks, q.graph, q.contents);
      forall k | 0 <= k < i ensures FileParsed(g, recipes[k]) {
        var r := recipes[k];
        assert old@before(FileParsed(g, r)) && Apart(r, q);
        ApartHashes(r, q, old@before(g.basehash), g.basehash);
        AllParsedKept(r, g.basewhitelist, g.sha, g.taskdeps[r.fn], g.gendeps[r.fn], g.lookupcache[r.fn],
                      old@before(g.basehash), g.basehash);
      }
    }
  }

  /** Parsing one file leaves the base hashes of a file apart from it alone. */
  lemma ApartHashes(r: Recipe, q: Recipe, before: map<Tid, string>, after: map<Tid, string>)
    requires Apart(r, q) && OthersKept(q.fn, q.tasks, before, after)
    ensures r.fn != q.fn
    ensures forall t :: t in r.tasks && TaskId(r.fn, t) in before ==>
              TaskId(r.fn, t) in after && after[TaskId(r.fn, t)] == before[TaskId(r.fn, t)]
  {
    hide TaskId;
  }

  // ---- hashing ----

  /** Every group of tasks has one that depends on none of them. */
  ghost predicate Acyclic(deps: map<Tid, seq<Tid>>) {
    forall s: set<Tid> :: s <= deps.Keys && s != {} ==> exists t :: t in s && forall d :: d in deps[t] ==> d !in s
  }

  lemma FirstOf(deps: map<Tid, seq<Tid>>, s: set<Tid>) returns (t: Tid)
    requires Acyclic(deps) && s <= deps.Keys && s != {}
    ensures t in s && forall d :: d in deps[t] ==> d !in s
  {
    t :| t in s && forall d :: d in deps[t] ==> d !in s;
  }

  ghost function DepsOf(jobs: map<Tid, Job>): map<Tid, seq<Tid>> {
    map t | t in jobs :: jobs[t].deps
  }

  /** What is recorded for a task is what the run queue brought along. */
  ghost predicate Recorded(g: SignatureGenerator, tid: Tid, job: Job, base: map<Tid, string>)
    reads g
  {
    && tid in base && tid in g.basehash && g.basehash[tid] == base[tid]
    && tid in g.runtaskdeps && g.runtaskdeps[tid] == Kept(job.deps, job.keep)
    && tid in g.fileChecksums && g.fileChecksums[tid] == job.checksums
    && (job.taintFile.Some? && job.taintFile.value != "" ==> g.Taint(tid) == job.taintFile)
  }

  /** The loop of the run queue: passes over the tasks left, dealing with each whose dependencies have
      been dealt with. It reaches every task, and no task is taken before its dependencies. */
  method HashAll(g: SignatureGenerator, jobs: map<Tid, Job>, base: map<Tid, string>)
    requires g.Valid() && g.taskhash == map[] && jobs.Keys <= base.Keys
    requires Acyclic(DepsOf(jobs)) && forall t, d :: t in jobs && d in jobs[t].deps ==> d in jobs
    modifies g`basehash, g`runtaskdeps, g`fileChecksums, g`taints, g`taskhash
    ensures g.Valid() && g.taskhash.Keys == jobs.Keys
    ensures forall t :: t in jobs ==> Recorded(g, t, jobs[t], base)
    ensures OthersSame(old(g.basehash), g.basehash, jobs.Keys)
  {
    hide Dealt, Acyclic, OthersSame;
    NothingDealt(g, jobs, base);
    SameRefl(g.basehash, jobs.Keys);
    var todeal := jobs.Keys;
    while todeal != {}
      invariant Dealt(g, jobs, base, todeal) && OthersSame(old(g.basehash), g.basehash, jobs.Keys)
      decreases |todeal|
    {
      ghost var ready := ReadyOne(g, jobs, base, todeal);
      ghost var before := g.basehash;
      var left := PassOver(g, jobs, base, todeal, ready);
      SameTrans(old(g.basehash), before, g.basehash, jobs.Keys);
      Smaller(left, todeal);
      todeal := left;
    }
    EverythingDealt(g, jobs, base);
  }

  /** One pass over a copy of what is left. */
  method PassOver(g: SignatureGenerator, jobs: map<Tid, Job>, base: map<Tid, string>, todeal: set<Tid>, ghost ready: Tid)
    returns (left: set<Tid>)
    requires Dealt(g, jobs, base, todeal) && jobs.Keys <= base.Keys && todeal <= jobs.Keys
    requires forall t, d :: t in jobs && d in jobs[t].deps ==> d in jobs
    requires ready in todeal && forall d :: d in jobs[ready].deps ==> d !in todeal
    modifies g`basehash, g`runtaskdeps, g`fileChecksums, g`taints, g`taskhash
    ensures Dealt(g, jobs, base, left) && OthersSame(old(g.basehash), g.basehash, jobs.Keys)
    ensures left < todeal
  {
    hide Dealt, OthersSame;
    SameRefl(g.basehash, jobs.Keys);
    left := todeal;
    var copy := todeal;
    while copy != {}
      invariant copy <= left <= todeal
      invariant Dealt(g, jobs, base, left) && OthersSame(old(g.basehash), g.basehash, jobs.Keys)
      invariant ready in copy || ready !in left
      decreases |copy|
    {
      var tid :| tid in copy;
      copy := copy - {tid};
      if forall d :: d in jobs[tid].deps ==> d !in left {
        ghost var before := g.basehash;
        DealWith(g, jobs, base, left, tid);
        SameTrans(old(g.basehash), before, g.basehash, jobs.Keys);
        left := left - {tid};
      }
    }
  }

  /** Nothing but the hashes of these tasks differs. */
  ghost predicate OthersSame(before: map<Tid, string>, after: map<Tid, string>, tids: set<Tid>) {
    forall t :: t in before && t !in tids ==> t in after && after[t] == before[t]
  }

  lemma SameRefl(m: map<Tid, string>, tids: set<Tid>)
    ensures OthersSame(m, m, tids)
  {
  }

  lemma SameTrans(a: map<Tid, string>, b: map<Tid, string>, c: map<Tid, string>, tids: set<Tid>)
    requires OthersSame(a, b, tids) && OthersSame(b, c, tids)
    ensures OthersSame(a, c, tids)
  {
  }

  lemma NothingDealt(g: SignatureGenerator, jobs: map<Tid, Job>, base: map<Tid, string>)
    requires g.Valid() && g.taskhash == map[]
    ensures Dealt(g, jobs, base, jobs.Keys)
  {
  }

  lemma EverythingDealt(g: SignatureGenerator, jobs: map<Tid, Job>, base: map<Tid, string>)
    requires Dealt(g, jobs, base, {})
    ensures g.Valid() && g.taskhash.Keys == jobs.Keys
    ensures forall t :: t in jobs ==> Recorded(g, t, jobs[t], base)
  {
  }

  /** What is not left has its hash. */
  ghost predicate Dealt(g: SignatureGenerator, jobs: map<Tid, Job>, base: map<Tid, string>, todeal: set<Tid>)
    reads g
  {
    && g.Valid() && todeal <= jobs.Keys && g.taskhash.Keys == jobs.Keys - todeal
    && forall t :: t in jobs && t !in todeal ==> Recorded(g, t, jobs[t], base)
  }

  lemma ReadyOne(g: SignatureGenerator, jobs: map<Tid, Job>, base: map<Tid, string>, todeal: set<Tid>) returns (t: Tid)
    requires Acyclic(DepsOf(jobs)) && Dealt(g, jobs, base, todeal) && todeal != {}
    ensures todeal <= jobs.Keys && t in todeal && forall d :: d in jobs[t].deps ==> d !in todeal
  {
    hide SignatureGenerator.Valid, Recorded, Acyclic;
    t := FirstOf(DepsOf(jobs), todeal);
  }

  lemma Smaller<T>(a: set<T>, b: set<T>)
    requires a < b
    ensures |a| < |b|
  {
    var x :| x in b && x !in a;
    SmallerOrSame(a, b - {x});
  }

  lemma {:induction false} SmallerOrSame<T>(a: set<T>, b: set<T>)
    requires a <= b
    ensures |a| <= |b|
  {
    if a != {} {
      var x :| x in a;
      SmallerOrSame(a - {x}, b - {x});
    }
  }

  /** prepare_task_hash of one task whose dependencies have their hashes. */
  method DealWith(g: SignatureGenerator, jobs: map<Tid, Job>, base: map<Tid, string>, ghost todeal: set<Tid>, tid: Tid)
    requires Dealt(g, jobs, base, todeal) && tid in todeal && jobs.Keys <= base.Keys
    requires forall d :: d in jobs[tid].deps ==> d in jobs && d !in todeal
    modifies g`basehash, g`runtaskdeps, g`fileChecksums, g`taints, g`taskhash
    ensures Dealt(g, jobs, base, todeal - {tid})
    ensures OthersSame(old(g.basehash), g.basehash, jobs.Keys)
  {
    hide SignatureGenerator.Valid, Kept, Recorded, OthersSame;
    Prepare(g, jobs[tid], base, tid);
    forall t | t in jobs && t !in todeal - {tid} ensures Recorded(g, t, jobs[t], base) {
      assert t != tid ==> old(Recorded(g, t, jobs[t], base));
    }
    SameButOne(old(g.basehash), g.basehash, jobs.Keys, tid);
  }

  lemma SameButOne(before: map<Tid, string>, after: map<Tid, string>, tids: set<Tid>, tid: Tid)
    requires tid in tids && tid in after && after == before[tid := after[tid]]
    ensures OthersSame(before, after, tids)
  {
  }

  /** It records the task and leaves what is recorded of the others. */
  method Prepare(g: SignatureGenerator, job: Job, base: map<Tid, string>, tid: Tid)
    requires g.Valid() && tid !in g.taskhash && tid in base && forall d :: d in job.deps ==> d in g.taskhash
    modifies g`basehash, g`runtaskdeps, g`fileChecksums, g`taints, g`taskhash
    ensures g.Valid() && g.taskhash.Keys == old(g.taskhash.Keys) + {tid}
    ensures Recorded(g, tid, job, base)
    ensures forall t, other :: t != tid && old(Recorded(g, t, other, base)) ==> Recorded(g, t, other, base)
    ensures tid in g.basehash && g.basehash == old(g.basehash)[tid := g.basehash[tid]]
  {
    hide SignatureGenerator.Valid, Kept;
    var ok := g.PrepareTaskHash(tid, job.deps, job.keep, base[tid], job.checksums, job.nostamp, job.uuid, job.taintFile);
    assert ok;
  }

  ghost predicate SameData(a: SignatureGenerator, b: SignatureGenerator, t: Tid)
    requires a.Prepared(t) && b.Prepared(t)
    reads a, b
  {
    && a.basehash[t] == b.basehash[t] && a.runtaskdeps[t] == b.runtaskdeps[t]
    && a.fileChecksums[t] == b.fileChecksums[t] && a.Taint(t) == b.Taint(t)
  }

  /** The hashes do not depend on the order: two generators with the same data recorded have the same hashes. */
  lemma OrderDoesNotMatter(a: SignatureGenerator, b: SignatureGenerator)
    requires a.Valid() && b.Valid() && a.sha == b.sha && a.taskhash.Keys == b.taskhash.Keys
    requires forall t :: t in a.taskhash ==> SameData(a, b, t)
    requires Acyclic(RecordedDeps(a))
    ensures a.taskhash == b.taskhash
  {
    hide SameData, SignatureGenerator.Valid, RecordedDeps, Acyclic;
    DepsHashed(a);
    var wrong := set t | t in a.taskhash && a.taskhash[t] != b.taskhash[t];
    if wrong != {} {
      var t := FirstOf(RecordedDeps(a), wrong);
      forall d | d in a.runtaskdeps[t] ensures d in a.taskhash && a.taskhash[d] == b.taskhash[d] {
        assert d !in wrong;
      }
      SameHash(a, b, t);
      assert false;
    }
    forall t | t in a.taskhash ensures a.taskhash[t] == b.taskhash[t] {
      assert t !in wrong;
    }
  }

  ghost function RecordedDeps(g: SignatureGenerator): map<Tid, seq<Tid>>
    reads g
  {
    map t | t in g.taskhash && t in g.runtaskdeps :: g.runtaskdeps[t]
  }

  lemma DepsHashed(g: SignatureGenerator)
    requires g.Valid()
    ensures RecordedDeps(g).Keys == g.taskhash.Keys
    ensures forall t :: t in g.taskhash ==> t in g.runtaskdeps && RecordedDeps(g)[t] == g.runtaskdeps[t]
    ensures forall t, d :: t in g.taskhash && d in g.runtaskdeps[t] ==> d in g.taskhash
  {
    assert forall t :: t in g.taskhash ==> g.Prepared(t);
  }

  lemma SameHash(a: SignatureGenerator, b: SignatureGenerator, t: Tid)
    requires a.Valid() && b.Valid() && a.sha == b.sha && a.taskhash.Keys == b.taskhash.Keys
    requires t in a.taskhash && SameData(a, b, t)
    requires forall d :: d in a.runtaskdeps[t] ==> d in a.taskhash && a.taskhash[d] == b.taskhash[d]
    ensures a.taskhash[t] == b.taskhash[t]
  {
    hide InputText;
    assert a.Prepared(t) && b.Prepared(t);
    assert a.Effective() == a.taskhash && b.Effective() == b.taskhash;
    InputCongruent(a.basehash[t], a.runtaskdeps[t], a.taskhash, b.taskhash, a.fileChecksums[t], a.Taint(t));
  }

  // ---- the whole run ----

  /** Each task of the run belongs to a parsed file, and its identifier is made of the two. */
  ghost predicate Owned(recipes: seq<Recipe>, tid: Tid, job: Job) {
    tid == TaskId(job.fn, job.task) && exists r :: r in recipes && r.fn == job.fn && job.task in r.tasks
  }

  /** The base hash has come out the same, and the task hash if the taint reads alike. */
  ghost predicate Recomputed(g: SignatureGenerator, t: Tid, job: Job, b: string, r: string)
    reads g
  {
    && t in g.basehash && b == g.basehash[t]
    && (TaintAgrees(g.Taint(t), job.taintFile) ==> t in g.taskhash && r == g.taskhash[t])
  }

  lemma OwnedIsParsed(g: SignatureGenerator, recipes: seq<Recipe>, tid: Tid, job: Job)
    requires (forall r :: r in recipes ==> FileParsed(g, r)) && Owned(recipes, tid, job)
    ensures g.Parsed(job.fn, job.task) && tid == TaskId(job.fn, job.task) && tid in g.basehash
  {
    hide Reaches, BaseData, Ascending;
    var r :| r in recipes && r.fn == job.fn && job.task in r.tasks;
    assert FileParsed(g, r);
  }

  lemma NothingHashed(g: SignatureGenerator)
    requires g.taskhash == map[]
    ensures g.Valid() <==> forall d :: d in g.unihash ==> g.unihash[d].None?
  {
  }

  /** Parses every file, hashes every task with the base hash that parsing recorded, and recomputes both
      hashes from the dump of each: the base hash always comes out the same, the task hash for every taint
      that both computations read alike. */
  method WholeRun(g: SignatureGenerator, recipes: seq<Recipe>, jobs: map<Tid, Job>)
    returns (bases: map<Tid, string>, runs: map<Tid, string>)
    requires g.Valid() && g.taskhash == map[]
    requires Separate(recipes) && forall r :: r in recipes ==> Parsable(r, g.basewhitelist)
    requires forall t :: t in jobs ==> Owned(recipes, t, jobs[t])
    requires Acyclic(DepsOf(jobs)) && forall t, d :: t in jobs && d in jobs[t].deps ==> d in jobs
    modifies g
    ensures g.Valid() && g.taskhash.Keys == jobs.Keys
    ensures forall r :: r in recipes ==> FileParsed(g, r)
    ensures forall t :: t in jobs ==> t in bases && t in runs && Recomputed(g, t, jobs[t], bases[t], runs[t])
  {
    hide SignatureGenerator.Valid, Acyclic, FileParsed, Recomputed, Separate, Parsable, Owned;
    NothingHashed(g);
    ParseAll(g, recipes);
    NothingHashed(g);
    var base := g.basehash;
    forall t | t in jobs ensures t in base {
      OwnedIsParsed(g, recipes, t, jobs[t]);
    }
    HashParsed(g, recipes, jobs, base);
    bases, runs := RecomputeAll(g, recipes, jobs, base);
  }

  /** Hashing leaves what parsing recorded. */
  method HashParsed(g: SignatureGenerator, recipes: seq<Recipe>, jobs: map<Tid, Job>, base: map<Tid, string>)
    requires g.Valid() && g.taskhash == map[] && g.basehash == base && jobs.Keys <= base.Keys
    requires Acyclic(DepsOf(jobs)) && forall t, d :: t in jobs && d in jobs[t].deps ==> d in jobs
    requires forall r :: r in recipes ==> FileParsed(g, r)
    modifies g`basehash, g`runtaskdeps, g`fileChecksums, g`taints, g`taskhash
    ensures g.Valid() && g.taskhash.Keys == jobs.Keys
    ensures forall t :: t in jobs ==> Recorded(g, t, jobs[t], base)
    ensures forall r :: r in recipes ==> FileParsed(g, r)
  {
    hide SignatureGenerator.Valid, Acyclic, AllParsed, Kept;
    HashAll(g, jobs, base);
    forall id | id in base ensures id in g.basehash && g.basehash[id] == base[id] {
      assert id in jobs ==> Recorded(g, id, jobs[id], base);
    }
    forall r | r in recipes ensures FileParsed(g, r) {
      assert old(FileParsed(g, r));
      AllParsedKept(r, g.basewhitelist, g.sha, g.taskdeps[r.fn], g.gendeps[r.fn], g.lookupcache[r.fn], base, g.basehash);
    }
  }

  /** Dumps every task and recomputes its hashes. */
  method RecomputeAll(g: SignatureGenerator, ghost recipes: seq<Recipe>, jobs: map<Tid, Job>, ghost base: map<Tid, string>)
    returns (bases: map<Tid, string>, runs: map<Tid, string>)
    requires g.Valid() && g.taskhash.Keys == jobs.Keys
    requires forall r :: r in recipes ==> FileParsed(g, r)
    requires forall t :: t in jobs ==> Owned(recipes, t, jobs[t]) && Recorded(g, t, jobs[t], base)
    ensures forall t :: t in jobs ==> t in bases && t in runs && Recomputed(g, t, jobs[t], bases[t], runs[t])
  {
    hide SignatureGenerator.Valid, FileParsed, Owned, Recorded, Recomputed;
    bases, runs := map[], map[];
    var left := jobs.Keys;
    while left != {}
      invariant left <= jobs.Keys
      invariant forall t :: t in jobs && t !in left ==> t in bases && t in runs && Recomputed(g, t, jobs[t], bases[t], runs[t])
      decreases |left|
    {
      var t :| t in left;
      var b, r := RecomputeOne(g, recipes, t, jobs[t], base);
      bases, runs, left := bases[t := b], runs[t := r], left - {t};
    }
  }

  method RecomputeOne(g: SignatureGenerator, ghost recipes: seq<Recipe>, t: Tid, job: Job, ghost base: map<Tid, string>)
    returns (b: string, r: string)
    requires g.Valid() && t in g.taskhash
    requires forall r :: r in recipes ==> FileParsed(g, r)
    requires Owned(recipes, t, job) && Recorded(g, t, job, base)
    ensures Recomputed(g, t, job, b, r)
  {
    hide SignatureGenerator.Valid, FileParsed, TaintAgrees, Owned, Kept, SignatureGenerator.Parsed;
    OwnedIsParsed(g, recipes, t, job);
    ghost var input;
    b, r, input := g.DumpAndRecompute(job.fn, job.task, job.taintFile);
  }
}
