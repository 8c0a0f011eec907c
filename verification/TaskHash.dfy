/** Task hashes of the basic signature generators, and their recomputation from dumped data. */
module TaskHash {
  import opened Options
  import opened Strings
  import opened SortedNames
  import opened BaseHash

  type Tid = string

  const NOSTAMP := "nostamp:"

  /** What a signature dump holds. */
  datatype SigData = SigData(
    task: Var,
    basewhitelist: set<Var>,
    taskdeps: seq<Var>,
    basehash: string,
    gendeps: Graph,
    varvals: Values,
    runtaskdeps: seq<Tid>,
    runtaskhashes: map<Tid, string>,
    fileChecksums: seq<(string, string)>,
    taint: Option<string>)

  predicate Contains(s: string, p: string) {
    exists i :: 0 <= i <= |s| && StartsWith(s[i..], p)
  }

  // ---- base hash ----

  lemma ReachSetAvoidsWhitelist(g: Graph, whitelist: set<Var>, task: Var)
    ensures ReachSet(g, whitelist, task) !! whitelist
  {
    forall x | x in ReachSet(g, whitelist, task) ensures x !in whitelist {
      var p :| IsChain(g, whitelist, task, p) && p[|p| - 1] == x;
    }
  }

  lemma {:induction false} BaseDataCongruent(task: Var, alldeps: seq<Var>, lookup: Values, lookup': Values)
    requires task in lookup && task in lookup' && lookup[task] == lookup'[task]
    requires forall d :: d in alldeps ==> d in lookup && d in lookup' && lookup[d] == lookup'[d]
    ensures BaseData(task, alldeps, lookup) == BaseData(task, alldeps, lookup')
  {
    if alldeps != [] {
      BaseDataCongruent(task, alldeps[..|alldeps| - 1], lookup, lookup');
    }
  }

  /** calc_basehash: the recomputation from dumped data. */
  method CalcBasehash(data: SigData, sha: string -> string) returns (hash: string)
    requires data.task in data.varvals && forall d :: d in data.taskdeps ==> d in data.varvals
    ensures hash == sha(BaseData(data.task, data.taskdeps, data.varvals))
  {
    var basedata := if data.varvals[data.task].None? then "" else data.varvals[data.task].value;
    var alldeps := data.taskdeps;
    for i := 0 to |alldeps|
      invariant basedata == BaseData(data.task, alldeps[..i], data.varvals)
    {
      assert alldeps[..i + 1][..i] == alldeps[..i];
      basedata := basedata + alldeps[i];
      var val := data.varvals[alldeps[i]];
      if val.Some? {
        basedata := basedata + val.value;
      }
    }
    assert alldeps[..|alldeps|] == alldeps;
    hash := sha(basedata);
  }

  // ---- task hash ----

  /** Hashes of the dependencies, in order. */
  ghost function DepText(deps: seq<Tid>, hashes: map<Tid, string>): string
    requires forall d :: d in deps ==> d in hashes
  {
    if deps == [] then ""
    else DepText(deps[..|deps| - 1], hashes) + hashes[deps[|deps| - 1]]
  }

  /** Checksums of the files, in order. */
  ghost function ChecksumText(checksums: seq<(string, string)>): string {
    if checksums == [] then ""
    else ChecksumText(checksums[..|checksums| - 1]) + checksums[|checksums| - 1].1
  }

  lemma DepTextNext(deps: seq<Tid>, i: nat, hashes: map<Tid, string>)
    requires i < |deps| && forall d :: d in deps ==> d in hashes
    ensures forall d :: d in deps[..i] ==> d in hashes
    ensures DepText(deps[..i + 1], hashes) == DepText(deps[..i], hashes) + hashes[deps[i]]
  {
    assert deps[..i + 1][..i] == deps[..i];
  }

  lemma ChecksumTextNext(checksums: seq<(string, string)>, i: nat)
    requires i < |checksums|
    ensures ChecksumText(checksums[..i + 1]) == ChecksumText(checksums[..i]) + checksums[i].1
  {
    assert checksums[..i + 1][..i] == checksums[..i];
  }

  lemma NoText(hashes: map<Tid, string>)
    ensures DepText([], hashes) == "" && ChecksumText([]) == ""
  {
  }

  /** The loop over the checksums, in both computations. */
  method AddChecksums(data: string, checksums: seq<(string, string)>) returns (text: string)
    ensures text == data + ChecksumText(checksums)
  {
    hide ChecksumText;
    NoText(map[]);
    text := data;
    for i := 0 to |checksums|
      invariant text == data + ChecksumText(checksums[..i])
    {
      ChecksumTextNext(checksums, i);
      if checksums[i].1 != "" {
        text := text + checksums[i].1;
      }
    }
    assert checksums[..|checksums|] == checksums;
  }

  /** What the run-time hash takes from the taint: `startswith` decides. */
  function TaintText(taint: Option<string>): string {
    match taint
    case None => ""
    case Some(t) => if StartsWith(t, NOSTAMP) then t[8..] else t
  }

  /** What the recomputation takes from it: `in` decides. */
  function CalcTaintText(taint: Option<string>): string {
    match taint
    case None => ""
    case Some(t) => if Contains(t, NOSTAMP) then t[8..] else t
  }

  /** Which taint the dump stores: the taint file if it has content, then the stored taint if it mentions nostamp. */
  function DumpedTaint(taint: Option<string>, file: Option<string>): Option<string> {
    if taint.Some? && Contains(taint.value, NOSTAMP) then taint
    else if file.Some? && file.value != "" then file
    else None
  }

  /** Nothing but a taint that begins with "nostamp:", or one from a taint file that nowhere mentions it. */
  predicate TaintAgrees(taint: Option<string>, file: Option<string>) {
    if file.Some? && file.value != "" then Contains(file.value, NOSTAMP) ==> StartsWith(file.value, NOSTAMP)
    else taint.Some? && taint.value != "" ==> StartsWith(taint.value, NOSTAMP)
  }

  lemma StartsWithContains(s: string, p: string)
    requires StartsWith(s, p)
    ensures Contains(s, p)
  {
    assert s[0..] == s;
  }

  /** As long as a taint file is the one that was read for the hash, both texts agree exactly for the
      taints described by TaintAgrees. */
  lemma TaintRecomputed(taint: Option<string>, file: Option<string>)
    requires file.Some? && file.value != "" ==> taint == file
    ensures TaintText(taint) == CalcTaintText(DumpedTaint(taint, file)) <==> TaintAgrees(taint, file)
  {
    if taint.Some? {
      var t := taint.value;
      if StartsWith(t, NOSTAMP) {
        StartsWithContains(t, NOSTAMP);
      } else if Contains(t, NOSTAMP) {
        assert |t| >= 8;
        assert |t[8..]| < |t|;
      }
    }
  }

  /** A forced run whose taint file mentions "nostamp:" later on is hashed in two different ways. */
  lemma TaintMismatchExample()
    ensures TaintText(Some("xnostamp:")) != CalcTaintText(DumpedTaint(Some("xnostamp:"), Some("xnostamp:")))
  {
    var t := "xnostamp:";
    assert t[1..][..8] == NOSTAMP;
    assert StartsWith(t[1..], NOSTAMP);
    assert t[0] != NOSTAMP[0];
    TaintRecomputed(Some(t), Some(t));
  }

  /** The string hashed for a task. */
  ghost function InputText(base: string, deps: seq<Tid>, hashes: map<Tid, string>, checksums: seq<(string, string)>,
                           taint: Option<string>): string
    requires forall d :: d in deps ==> d in hashes
  {
    base + DepText(deps, hashes) + ChecksumText(checksums) + TaintText(taint)
  }

  /** The recorded base hash of a task is the hash over its recorded dependencies, all of which have a
      recorded value and none of which is whitelisted. */
  ghost predicate ParsedIn(fn: string, task: Var, whitelist: set<Var>, sha: string -> string, td: map<Var, seq<Var>>,
                           g: Graph, lookup: Values, basehash: map<Tid, string>) {
    && task in td && task in lookup
    && (forall d :: d in td[task] ==> d in lookup && d in g && d !in whitelist)
    && TaskId(fn, task) in basehash
    && basehash[TaskId(fn, task)] == sha(BaseData(task, td[task], lookup))
  }

  /** Only the hashes of these tasks have changed. */
  ghost predicate OthersKept(fn: string, tasks: seq<Var>, before: map<Tid, string>, after: map<Tid, string>) {
    forall id :: id in before && (forall t :: t in tasks ==> id != TaskId(fn, t)) ==> id in after && after[id] == before[id]
  }

  class SignatureGenerator {
    const sha: string -> string
    const basewhitelist: set<Var>
    var basehash: map<Tid, string>
    var taskhash: map<Tid, string>
    var unihash: map<Tid, Option<string>>
    var taskdeps: map<string, map<Var, seq<Var>>>
    var gendeps: map<string, Graph>
    var lookupcache: map<string, Values>
    var runtaskdeps: map<Tid, seq<Tid>>
    var fileChecksums: map<Tid, seq<(string, string)>>
    var taints: map<Tid, string>

    constructor (sha: string -> string, basewhitelist: set<Var>)
      ensures Valid()
      ensures this.sha == sha && this.basewhitelist == basewhitelist
      ensures taskhash == map[] && taskdeps == map[]
    {
      this.sha, this.basewhitelist := sha, basewhitelist;
      basehash, taskhash, unihash, taskdeps, gendeps, lookupcache := map[], map[], map[], map[], map[], map[];
      runtaskdeps, fileChecksums, taints := map[], map[], map[];
    }

    ghost function Taint(tid: Tid): Option<string>
      reads this
    {
      if tid in taints then Some(taints[tid]) else None
    }

    /** Everything the hash of the task is computed from is there. */
    ghost predicate Prepared(tid: Tid)
      reads this
    {
      && tid in basehash && tid in runtaskdeps && tid in fileChecksums
      && forall d :: d in runtaskdeps[tid] ==> d in taskhash
    }

    /** The string that is hashed for the task. */
    ghost function TaskInput(tid: Tid): string
      requires Prepared(tid)
      reads this
    {
      InputText(basehash[tid], runtaskdeps[tid], Effective(), fileChecksums[tid], Taint(tid))
    }

    /** The hash that stands for each task: the one from the equivalence table if it has one. */
    ghost function Effective(): (m: map<Tid, string>)
      reads `taskhash, `unihash
      ensures m.Keys == taskhash.Keys
    {
      map d | d in taskhash :: if d in unihash && unihash[d].Some? then unihash[d].value else taskhash[d]
    }

    /** Every recorded task hash is the hash of what is recorded for the task now. */
    ghost predicate Valid()
      reads this
    {
      && (forall d :: d in unihash ==> unihash[d].None?)
      && forall tid :: tid in taskhash ==> Prepared(tid) && taskhash[tid] == sha(TaskInput(tid))
    }

    /** The basic generators have no equivalence server: the task hash stands for the output. */
    method GetUnihash(tid: Tid) returns (hash: string)
      requires tid in taskhash
      ensures hash == taskhash[tid]
    {
      hash := taskhash[tid];
    }

    /** Parse time: dependency sets and base hashes of one recipe file. */
    method BuildData(fn: string, tasks: seq<Var>, recipe: Graph, contents: Values)
      requires Covers(recipe, basewhitelist, tasks) && recipe.Keys <= contents.Keys
      modifies `basehash, `taskdeps, `gendeps, `lookupcache
      ensures fn in taskdeps && fn in gendeps && fn in lookupcache
      ensures AllParsed(fn, tasks, recipe, basewhitelist, sha, taskdeps[fn], gendeps[fn], lookupcache[fn], basehash)
      ensures taskdeps == old(taskdeps)[fn := taskdeps[fn]] && gendeps == old(gendeps)[fn := gendeps[fn]]
      ensures lookupcache == old(lookupcache)[fn := lookupcache[fn]]
      ensures OthersKept(fn, tasks, old(basehash), basehash)
    {
      hide Covers, Tables, Hashed, SameUpTo, AllParsed, TaskId, OthersKept;
      var deps, values := GenerateDependencies(tasks, recipe, contents, basewhitelist);
      TablesKeys(deps, values, recipe, contents);
      var gd, td, bh := GenerateDependencyHash(tasks, deps, values, basewhitelist, fn, sha);
      HashedKeys(deps, basewhitelist, values, fn, sha, tasks, td, bh);
      ghost var g := deps;
      basehash := StoreHashes(fn, tasks, bh);
      taskdeps := taskdeps[fn := td];
      gendeps := gendeps[fn := gd];
      lookupcache := lookupcache[fn := values];
      EveryTaskParsed(g, recipe, basewhitelist, values, contents, fn, sha, tasks, td, bh, gd, basehash);
    }

    /** The parse-time loop that records the base hash of each task. */
    method StoreHashes(fn: string, tasks: seq<Var>, bh: map<string, string>) returns (merged: map<Tid, string>)
      requires forall t :: t in tasks ==> TaskId(fn, t) in bh
      ensures forall t :: t in tasks ==> TaskId(fn, t) in merged && merged[TaskId(fn, t)] == bh[TaskId(fn, t)]
      ensures OthersKept(fn, tasks, basehash, merged)
    {
      merged := basehash;
      for i := 0 to |tasks|
        invariant OthersKept(fn, tasks, basehash, merged)
        invariant forall t :: t in tasks[..i] ==> TaskId(fn, t) in merged && merged[TaskId(fn, t)] == bh[TaskId(fn, t)]
      {
        var tid := TaskId(fn, tasks[i]);
        assert tasks[i] in tasks;
        merged := merged[tid := bh[tid]];
      }
      assert tasks[..|tasks|] == tasks;
    }

    ghost predicate Parsed(fn: string, task: Var)
      reads this
    {
      && fn in taskdeps && fn in gendeps && fn in lookupcache
      && ParsedIn(fn, task, basewhitelist, sha, taskdeps[fn], gendeps[fn], lookupcache[fn], basehash)
    }

    /** Records what the hash of a task depends on; false where the source ends with the message that
        the caller does not go in dependency order. `deps` is already sorted, `keep` is the run-time
        dependency filter, `taintFile` the content of the taint file if there is one. */
    method PrepTaskhash(tid: Tid, deps: seq<Tid>, keep: Tid -> bool, basetaskhash: string,
                        checksums: seq<(string, string)>, nostamp: bool, uuid: string, taintFile: Option<string>)
      returns (ok: bool)
      modifies `basehash, `runtaskdeps, `fileChecksums, `taints
      ensures basehash == old(basehash)[tid := basetaskhash]
      ensures tid in runtaskdeps && runtaskdeps == old(runtaskdeps)[tid := runtaskdeps[tid]]
      ensures tid in fileChecksums && fileChecksums == old(fileChecksums)[tid := fileChecksums[tid]]
      ensures taints == old(taints) || (tid in taints && taints == old(taints)[tid := taints[tid]])
      ensures ok ==> Prepared(tid)
      ensures ok <==> forall d :: d in deps && keep(d) ==> d in taskhash
      ensures ok ==> runtaskdeps[tid] == Kept(deps, keep) && fileChecksums[tid] == checksums
      ensures ok && taintFile.Some? && taintFile.value != "" ==> Taint(tid) == taintFile
      ensures ok && !(taintFile.Some? && taintFile.value != "") && nostamp ==>
                Taint(tid).Some? && StartsWith(Taint(tid).value, NOSTAMP)
      ensures ok && !(taintFile.Some? && taintFile.value != "") && !nostamp ==> Taint(tid) == old(Taint(tid))
    {
      hide Kept, StartsWith;
      basehash := basehash[tid := basetaskhash];
      fileChecksums := fileChecksums[tid := []];
      ok := RecordDependencies(tid, deps, keep);
      if !ok {
        return;
      }
      KeptMembers(deps, keep);
      RecordChecksums(tid, checksums);
      RecordTaint(tid, nostamp, uuid, taintFile);
    }

    method RecordChecksums(tid: Tid, checksums: seq<(string, string)>)
      requires tid in fileChecksums && fileChecksums[tid] == []
      modifies `fileChecksums
      ensures fileChecksums == old(fileChecksums)[tid := checksums]
    {
      for i := 0 to |checksums|
        invariant fileChecksums == old(fileChecksums)[tid := checksums[..i]]
      {
        assert checksums[..i + 1] == checksums[..i] + [checksums[i]];
        fileChecksums := fileChecksums[tid := fileChecksums[tid] + [checksums[i]]];
      }
      assert checksums[..|checksums|] == checksums;
    }

    /** The dependencies that pass the filter, as long as each of them has a hash already. */
    method RecordDependencies(tid: Tid, deps: seq<Tid>, keep: Tid -> bool) returns (ok: bool)
      modifies `runtaskdeps
      ensures tid in runtaskdeps && runtaskdeps == old(runtaskdeps)[tid := runtaskdeps[tid]]
      ensures ok <==> forall d :: d in deps && keep(d) ==> d in taskhash
      ensures ok ==> runtaskdeps[tid] == Kept(deps, keep)
    {
      hide Kept;
      runtaskdeps := runtaskdeps[tid := []];
      NothingKept(keep);
      for i := 0 to |deps|
        invariant tid in runtaskdeps && runtaskdeps[tid] == Kept(deps[..i], keep)
        invariant runtaskdeps == old(runtaskdeps)[tid := runtaskdeps[tid]]
        invariant forall k :: 0 <= k < i && keep(deps[k]) ==> deps[k] in taskhash
      {
        KeptNext(deps, i, keep);
        if !keep(deps[i]) {
          continue;
        }
        if deps[i] !in taskhash {
          return false;
        }
        runtaskdeps := runtaskdeps[tid := runtaskdeps[tid] + [deps[i]]];
      }
      assert deps[..|deps|] == deps;
      return true;
    }

    /** A task without a stamp gets a random taint once; a taint file overrides it. */
    method RecordTaint(tid: Tid, nostamp: bool, uuid: string, taintFile: Option<string>)
      modifies `taints
      ensures taints == old(taints) || (tid in taints && taints == old(taints)[tid := taints[tid]])
      ensures taintFile.Some? && taintFile.value != "" ==> Taint(tid) == taintFile
      ensures !(taintFile.Some? && taintFile.value != "") && nostamp ==>
                Taint(tid).Some? && StartsWith(Taint(tid).value, NOSTAMP)
      ensures !(taintFile.Some? && taintFile.value != "") && !nostamp ==> Taint(tid) == old(Taint(tid))
    {
      if nostamp {
        if tid in taints && StartsWith(taints[tid], NOSTAMP) {
        } else {
          assert (NOSTAMP + uuid)[..|NOSTAMP|] == NOSTAMP;
          taints := taints[tid := NOSTAMP + uuid];
        }
      }
      if taintFile.Some? && taintFile.value != "" {
        taints := taints[tid := taintFile.value];
      }
    }

    /** The run-time hash of a prepared task. */
    method GetTaskhash(tid: Tid) returns (hash: string)
      requires Prepared(tid)
      modifies `taskhash
      ensures hash == sha(old(TaskInput(tid)))
      ensures taskhash == old(taskhash)[tid := hash]
    {
      hide DepText, ChecksumText;
      var data := AddDependencies(tid);
      data := AddChecksums(data, fileChecksums[tid]);
      assert data + "" == data;
      if tid in taints {
        if StartsWith(taints[tid], NOSTAMP) {
          data := data + taints[tid][8..];
        } else {
          data := data + taints[tid];
        }
      }
      hash := sha(data);
      taskhash := taskhash[tid := hash];
    }

    /** Its loop over the dependencies. */
    method AddDependencies(tid: Tid) returns (data: string)
      requires Prepared(tid)
      ensures data == basehash[tid] + DepText(runtaskdeps[tid], Effective())
    {
      hide DepText;
      data := basehash[tid];
      var deps := runtaskdeps[tid];
      ghost var hashes := Effective();
      NoText(hashes);
      for i := 0 to |deps|
        invariant data == basehash[tid] + DepText(deps[..i], hashes)
      {
        var dep := deps[i];
        DepTextNext(deps, i, hashes);
        if dep in unihash {
          data := data + (if unihash[dep].None? then taskhash[dep] else unihash[dep].value);
        } else {
          var h := GetUnihash(dep);
          data := data + h;
        }
      }
      assert deps[..|deps|] == deps;
    }

    /** What the run queue does for each task, in dependency order and once each: every recorded hash
        stays the hash of what is recorded. */
    method PrepareTaskHash(tid: Tid, deps: seq<Tid>, keep: Tid -> bool, basetaskhash: string,
                           checksums: seq<(string, string)>, nostamp: bool, uuid: string, taintFile: Option<string>)
      returns (ok: bool)
      requires Valid() && tid !in taskhash
      modifies `basehash, `runtaskdeps, `fileChecksums, `taints, `taskhash
      ensures Valid()
      ensures ok <==> forall d :: d in deps && keep(d) ==> d in old(taskhash)
      ensures ok ==> tid in taskhash && taskhash == old(taskhash)[tid := taskhash[tid]]
      ensures !ok ==> taskhash == old(taskhash)
      ensures basehash == old(basehash)[tid := basetaskhash]
      ensures ok ==> runtaskdeps == old(runtaskdeps)[tid := Kept(deps, keep)]
      ensures ok ==> fileChecksums == old(fileChecksums)[tid := checksums]
      ensures ok && taintFile.Some? && taintFile.value != "" ==> Taint(tid) == taintFile
      ensures taints == old(taints) || (tid in taints && taints == old(taints)[tid := taints[tid]])
    {
      hide InputText, Kept, StartsWith;
      ok := PrepTaskhash(tid, deps, keep, basetaskhash, checksums, nostamp, uuid, taintFile);
      assert Effective() == taskhash;
      forall t | t in taskhash ensures Prepared(t) && TaskInput(t) == old(TaskInput(t)) {
        assert t != tid && old(Prepared(t));
      }
      if ok {
        HashPrepared(tid);
      }
    }

    /** A first hash of a prepared task leaves the other hashes right. */
    method HashPrepared(tid: Tid)
      requires Valid() && Prepared(tid) && tid !in taskhash
      modifies `taskhash
      ensures Valid() && tid in taskhash && taskhash == old(taskhash)[tid := taskhash[tid]]
    {
      hide InputText;
      ghost var hashes := taskhash;
      var hash := GetTaskhash(tid);
      assert old(Effective()) == hashes && Effective() == taskhash;
      forall t | t in taskhash ensures Prepared(t) && taskhash[t] == sha(TaskInput(t)) {
        assert old(Prepared(t));
        InputCongruent(basehash[t], runtaskdeps[t], hashes, taskhash, fileChecksums[t], Taint(t));
      }
    }

    /** The data of dump_sigtask for a task with a run-time hash. `taintFile` is the content of the taint
        file at this moment. */
    method DumpSigtask(fn: string, task: Var, taintFile: Option<string>) returns (data: SigData)
      requires Valid() && Parsed(fn, task) && TaskId(fn, task) in taskhash
      ensures data.task == task && data.taskdeps == taskdeps[fn][task] && data.basehash == basehash[TaskId(fn, task)]
      ensures data.task in data.varvals && forall d :: d in data.taskdeps ==> d in data.varvals
      ensures sha(BaseData(data.task, data.taskdeps, data.varvals)) == ParsedHash(fn, task)
      ensures forall d :: d in data.runtaskdeps ==> d in data.runtaskhashes
      ensures data.runtaskdeps == runtaskdeps[TaskId(fn, task)] && data.fileChecksums == fileChecksums[TaskId(fn, task)]
      ensures data.taint == DumpedTaint(Taint(TaskId(fn, task)), taintFile)
      ensures DepText(data.runtaskdeps, data.runtaskhashes) == DepText(runtaskdeps[TaskId(fn, task)], taskhash)
    {
      hide BaseData, DepText, Contains;
      var tid := TaskId(fn, task);
      var alldeps := taskdeps[fn][task];
      var gd, varvals := DumpValues(fn, task);
      BaseDataCongruent(task, alldeps, varvals, lookupcache[fn]);
      var hashes := DumpHashes(tid);
      DepTextCongruent(runtaskdeps[tid], hashes, taskhash);
      var taint := None;
      if taintFile.Some? && taintFile.value != "" {
        taint := taintFile;
      }
      if tid in taints && Contains(taints[tid], NOSTAMP) {
        taint := Some(taints[tid]);
      }
      data := SigData(task, basewhitelist, alldeps, basehash[tid], gd, varvals, runtaskdeps[tid], hashes,
                      fileChecksums[tid], taint);
    }

    /** Its loop over the dependencies found at parse time. */
    method DumpValues(fn: string, task: Var) returns (gd: Graph, varvals: Values)
      requires Parsed(fn, task)
      ensures task in varvals && varvals[task] == lookupcache[fn][task]
      ensures forall d :: d in taskdeps[fn][task] ==> d in varvals && varvals[d] == lookupcache[fn][d]
    {
      var alldeps := taskdeps[fn][task];
      gd, varvals := map[], map[task := lookupcache[fn][task]];
      for i := 0 to |alldeps|
        invariant task in varvals && varvals[task] == lookupcache[fn][task]
        invariant forall k :: 0 <= k < i ==> alldeps[k] in varvals && varvals[alldeps[k]] == lookupcache[fn][alldeps[k]]
      {
        var dep := alldeps[i];
        assert dep in alldeps;
        if dep in basewhitelist {
          continue;
        }
        gd := gd[dep := gendeps[fn][dep]];
        varvals := varvals[dep := lookupcache[fn][dep]];
      }
    }

    /** The base hash as computed at parse time. */
    ghost function ParsedHash(fn: string, task: Var): string
      requires Parsed(fn, task)
      reads this
    {
      sha(BaseData(task, taskdeps[fn][task], lookupcache[fn]))
    }

    method DumpHashes(tid: Tid) returns (hashes: map<Tid, string>)
      requires Prepared(tid)
      ensures forall d :: d in runtaskdeps[tid] ==> d in hashes && hashes[d] == taskhash[d]
    {
      hashes := map[];
      var deps := runtaskdeps[tid];
      for i := 0 to |deps|
        invariant forall d :: d in deps[..i] ==> d in hashes && hashes[d] == taskhash[d]
      {
        assert deps[i] in deps;
        var h := GetUnihash(deps[i]);
        hashes := hashes[deps[i] := h];
      }
      assert deps[..|deps|] == deps;
    }

    /** Dumping a task and recomputing its hashes from the dump gives back the base hash, and the task
        hash exactly when the taint is one both computations read in the same way. */
    method DumpAndRecompute(fn: string, task: Var, taintFile: Option<string>) returns (base: string, run: string, ghost input: string)
      requires Valid() && Parsed(fn, task) && TaskId(fn, task) in taskhash
      requires taintFile.Some? && taintFile.value != "" ==> Taint(TaskId(fn, task)) == taintFile
      ensures base == basehash[TaskId(fn, task)]
      ensures run == sha(input)
      ensures input == TaskInput(TaskId(fn, task)) <==> TaintAgrees(Taint(TaskId(fn, task)), taintFile)
      ensures TaintAgrees(Taint(TaskId(fn, task)), taintFile) ==> run == taskhash[TaskId(fn, task)]
    {
      hide DepText, ChecksumText, BaseData, TaintText, CalcTaintText, DumpedTaint, TaintAgrees;
      var data := DumpSigtask(fn, task, taintFile);
      base := CalcBasehash(data, sha);
      run := CalcTaskhash(data, sha);
      input := CalcInput(data);
      assert Effective() == taskhash;
      TaintRecomputed(Taint(TaskId(fn, task)), taintFile);
      SuffixesDecide(data.basehash + DepText(data.runtaskdeps, data.runtaskhashes) + ChecksumText(data.fileChecksums),
                     CalcTaintText(data.taint), TaintText(Taint(TaskId(fn, task))));
    }
  }

  lemma SuffixesDecide(front: string, a: string, b: string)
    ensures front + a == front + b <==> a == b
  {
    assert (front + a)[|front|..] == a && (front + b)[|front|..] == b;
  }

  /** The string calc_taskhash hashes. */
  ghost function CalcInput(data: SigData): string
    requires forall d :: d in data.runtaskdeps ==> d in data.runtaskhashes
  {
    data.basehash + DepText(data.runtaskdeps, data.runtaskhashes) + ChecksumText(data.fileChecksums) + CalcTaintText(data.taint)
  }

  /** calc_taskhash: the recomputation from dumped data. */
  method CalcTaskhash(data: SigData, sha: string -> string) returns (hash: string)
    requires forall d :: d in data.runtaskdeps ==> d in data.runtaskhashes
    ensures hash == sha(CalcInput(data))
  {
    hide DepText, ChecksumText;
    var text := data.basehash;
    var deps := data.runtaskdeps;
    NoText(data.runtaskhashes);
    for i := 0 to |deps|
      invariant text == data.basehash + DepText(deps[..i], data.runtaskhashes)
    {
      DepTextNext(deps, i, data.runtaskhashes);
      text := text + data.runtaskhashes[deps[i]];
    }
    assert deps[..|deps|] == deps;
    text := AddChecksums(text, data.fileChecksums);
    assert text + "" == text;
    if data.taint.Some? {
      if Contains(data.taint.value, NOSTAMP) {
        text := text + data.taint.value[8..];
      } else {
        text := text + data.taint.value;
      }
    }
    hash := sha(text);
  }

  lemma TablesKeys(deps: Graph, values: Values, recipe: Graph, contents: Values)
    requires Tables(deps, values, recipe, contents)
    ensures deps.Keys == values.Keys
  {}

  /** Every task of the file is recorded, and its dependency list is what the task reaches. */
  ghost predicate AllParsed(fn: string, tasks: seq<Var>, recipe: Graph, whitelist: set<Var>, sha: string -> string,
                            td: map<Var, seq<Var>>, g: Graph, lookup: Values, basehash: map<Tid, string>) {
    forall t :: t in tasks ==>
      && ParsedIn(fn, t, whitelist, sha, td, g, lookup, basehash)
      && Ascending(td[t])
      && forall x :: x in td[t] <==> Reaches(recipe, whitelist, t, x)
  }

  lemma EveryTaskParsed(g: Graph, recipe: Graph, whitelist: set<Var>, values: Values, contents: Values, fn: string,
                        sha: string -> string, tasks: seq<Var>, td: map<Var, seq<Var>>, bh: map<string, string>,
                        g': Graph, merged: map<Tid, string>)
    requires Covers(g, whitelist, tasks) && Tables(g, values, recipe, contents) && SameUpTo(g, g', whitelist)
    requires forall t :: t in tasks ==> Hashed(g, whitelist, values, fn, sha, t, td, bh)
    requires forall t :: t in tasks ==>
               TaskId(fn, t) in bh && TaskId(fn, t) in merged && merged[TaskId(fn, t)] == bh[TaskId(fn, t)]
    ensures AllParsed(fn, tasks, recipe, whitelist, sha, td, g', values, merged)
  {
    hide Covers, Tables, Hashed, SameUpTo, ParsedIn, TaskId, Reaches;
    HashedKeys(g, whitelist, values, fn, sha, tasks, td, bh);
    forall t | t in tasks
      ensures ParsedIn(fn, t, whitelist, sha, td, g', values, merged)
      ensures Ascending(td[t])
      ensures forall x :: x in td[t] <==> Reaches(recipe, whitelist, t, x)
    {
      HashedMeans(g, recipe, whitelist, values, contents, fn, sha, tasks, t, td, bh, g', merged);
    }
  }

  lemma HashedKeys(g: Graph, whitelist: set<Var>, values: Values, fn: string, sha: string -> string, tasks: seq<Var>,
                   td: map<Var, seq<Var>>, bh: map<string, string>)
    requires forall t :: t in tasks ==> Hashed(g, whitelist, values, fn, sha, t, td, bh)
    ensures forall t :: t in tasks ==> TaskId(fn, t) in bh && t in td
  {}

  lemma HashedMeans(g: Graph, recipe: Graph, whitelist: set<Var>, values: Values, contents: Values, fn: string, sha: string -> string,
                    tasks: seq<Var>, t: Var, td: map<Var, seq<Var>>, bh: map<string, string>,
                    g': Graph, merged: map<Tid, string>)
    requires Hashed(g, whitelist, values, fn, sha, t, td, bh)
    requires Covers(g, whitelist, tasks) && t in tasks
    requires Tables(g, values, recipe, contents) && SameUpTo(g, g', whitelist)
    requires TaskId(fn, t) in merged && merged[TaskId(fn, t)] == bh[TaskId(fn, t)]
    ensures ParsedIn(fn, t, whitelist, sha, td, g', values, merged)
    ensures Ascending(td[t])
    ensures forall x :: x in td[t] <==> Reaches(recipe, whitelist, t, x)
  {
    SortedAscending(ReachSet(g, whitelist, t));
    ReachSetAvoidsWhitelist(g, whitelist, t);
    SubgraphReaches(g, recipe, whitelist, tasks, t);
    forall x | Reaches(g, whitelist, t, x) ensures x in g {
      var p :| IsChain(g, whitelist, t, p) && p[|p| - 1] == x;
      ChainInSubgraph(g, recipe, whitelist, tasks, t, p);
    }
  }

  ghost function Kept(deps: seq<Tid>, keep: Tid -> bool): seq<Tid> {
    if deps == [] then []
    else Kept(deps[..|deps| - 1], keep) + (if keep(deps[|deps| - 1]) then [deps[|deps| - 1]] else [])
  }

  lemma KeptNext(deps: seq<Tid>, i: nat, keep: Tid -> bool)
    requires i < |deps|
    ensures Kept(deps[..i + 1], keep) == if keep(deps[i]) then Kept(deps[..i], keep) + [deps[i]] else Kept(deps[..i], keep)
  {
    assert deps[..i + 1][..i] == deps[..i];
  }

  lemma NothingKept(keep: Tid -> bool)
    ensures Kept([], keep) == []
  {
  }

  lemma {:induction false} KeptMembers(deps: seq<Tid>, keep: Tid -> bool)
    ensures forall d :: d in Kept(deps, keep) <==> d in deps && keep(d)
  {
    if deps != [] {
      KeptMembers(deps[..|deps| - 1], keep);
      assert deps == deps[..|deps| - 1] + [deps[|deps| - 1]];
    }
  }

  lemma InputCongruent(base: string, deps: seq<Tid>, hashes: map<Tid, string>, hashes': map<Tid, string>,
                       checksums: seq<(string, string)>, taint: Option<string>)
    requires forall d :: d in deps ==> d in hashes && d in hashes' && hashes[d] == hashes'[d]
    ensures InputText(base, deps, hashes, checksums, taint) == InputText(base, deps, hashes', checksums, taint)
  {
    DepTextCongruent(deps, hashes, hashes');
  }

  lemma {:induction false} DepTextCongruent(deps: seq<Tid>, hashes: map<Tid, string>, hashes': map<Tid, string>)
    requires forall d :: d in deps ==> d in hashes && d in hashes' && hashes[d] == hashes'[d]
    ensures DepText(deps, hashes) == DepText(deps, hashes')
  {
    if deps != [] {
      DepTextCongruent(deps[..|deps| - 1], hashes, hashes');
    }
  }

  /** The tables filled at parse time reach from a task exactly what the full graph reaches. */
  lemma SubgraphReaches(g: Graph, recipe: Graph, whitelist: set<Var>, tasks: seq<Var>, t: Var)
    requires Covers(g, whitelist, tasks) && t in tasks
    requires g.Keys <= recipe.Keys && forall k :: k in g ==> g[k] == recipe[k]
    ensures forall x :: Reaches(g, whitelist, t, x) <==> Reaches(recipe, whitelist, t, x)
  {
    forall p | IsChain(g, whitelist, t, p) ensures IsChain(recipe, whitelist, t, p) {}
    forall p | IsChain(recipe, whitelist, t, p) ensures IsChain(g, whitelist, t, p) {
      ChainInSubgraph(g, recipe, whitelist, tasks, t, p);
    }
  }

  lemma {:induction false} ChainInSubgraph(g: Graph, recipe: Graph, whitelist: set<Var>, tasks: seq<Var>, t: Var, p: seq<Var>)
    requires Covers(g, whitelist, tasks) && t in tasks
    requires g.Keys <= recipe.Keys && forall k :: k in g ==> g[k] == recipe[k]
    requires IsChain(recipe, whitelist, t, p)
    ensures IsChain(g, whitelist, t, p) && p[|p| - 1] in g
  {
    if |p| == 1 {
      assert p[0] in g[t] - whitelist;
    } else {
      var q := p[..|p| - 1];
      ChainInSubgraph(g, recipe, whitelist, tasks, t, q);
      assert p[|p| - 1] in g[q[|q| - 1]] - whitelist;
    }
  }
}
