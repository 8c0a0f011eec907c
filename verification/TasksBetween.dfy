/** The task graph of a recipe and the tasks that lie between two of its tasks. */
module TasksBetween {
  import opened Sequences

  type Task = string
  type Deps = map<Task, seq<Task>>

  /** b is a listed task that runs after a. */
  ghost predicate Edge(tasks: seq<Task>, deps: Deps, a: Task, b: Task) {
    b in tasks && b != a && b in deps && a in deps[b]
  }

  /** p is a dependency chain that starts at a and ends at b. */
  ghost predicate IsPath(tasks: seq<Task>, deps: Deps, p: seq<Task>, a: Task, b: Task) {
    && p != [] && p[0] == a && p[|p| - 1] == b
    && forall i :: 0 <= i < |p| - 1 ==> Edge(tasks, deps, p[i], p[i + 1])
  }

  ghost predicate Acyclic(tasks: seq<Task>, deps: Deps) {
    forall p, a :: IsPath(tasks, deps, p, a, a) ==> |p| == 1
  }

  lemma PathAppend(tasks: seq<Task>, deps: Deps, p: seq<Task>, a: Task, b: Task, c: Task)
    requires IsPath(tasks, deps, p, a, b)
    requires Edge(tasks, deps, b, c)
    ensures IsPath(tasks, deps, p + [c], a, c)
  {
    var q := p + [c];
    forall i | 0 <= i < |q| - 1 ensures Edge(tasks, deps, q[i], q[i + 1]) {
      assert q[i] == p[i];
    }
  }

  lemma PathSuffix(tasks: seq<Task>, deps: Deps, p: seq<Task>, a: Task, b: Task, i: nat)
    requires IsPath(tasks, deps, p, a, b) && i < |p|
    ensures IsPath(tasks, deps, p[i..], p[i], b)
  {}

  lemma PathPrepend(tasks: seq<Task>, deps: Deps, p: seq<Task>, a: Task, b: Task, first: Task)
    requires IsPath(tasks, deps, p, a, b)
    requires Edge(tasks, deps, first, a)
    ensures IsPath(tasks, deps, [first] + p, first, b)
  {}

  /** In an acyclic graph a successor of the end of a chain is not on the chain. */
  lemma FreshSuccessor(tasks: seq<Task>, deps: Deps, p: seq<Task>, a: Task, b: Task, c: Task)
    requires Acyclic(tasks, deps)
    requires IsPath(tasks, deps, p, a, b)
    requires Edge(tasks, deps, b, c)
    ensures c !in p
  {
    if c in p {
      var i :| 0 <= i < |p| && p[i] == c;
      PathSuffix(tasks, deps, p, a, b, i);
      PathAppend(tasks, deps, p[i..], c, b, c);
    }
  }

  /** x lies on some chain from a to b. */
  ghost predicate Between(tasks: seq<Task>, deps: Deps, a: Task, b: Task, x: Task) {
    exists p :: IsPath(tasks, deps, p, a, b) && x in p
  }

  ghost predicate Connected(tasks: seq<Task>, deps: Deps, a: Task, b: Task) {
    exists p :: IsPath(tasks, deps, p, a, b)
  }

  /** At the end of the walk only the end itself lies between. */
  lemma BetweenAtEnd(tasks: seq<Task>, deps: Deps, b: Task)
    requires Acyclic(tasks, deps)
    ensures Connected(tasks, deps, b, b)
    ensures forall x :: Between(tasks, deps, b, b, x) <==> x == b
  {
    assert IsPath(tasks, deps, [b], b, b);
    assert b in [b];
    forall x | Between(tasks, deps, b, b, x) ensures x == b {
      var p :| IsPath(tasks, deps, p, b, b) && x in p;
      assert |p| == 1;
    }
  }

  /** Elsewhere a chain goes through one of the successors. */
  lemma BetweenBySuccessor(tasks: seq<Task>, deps: Deps, a: Task, b: Task)
    requires a != b
    ensures Connected(tasks, deps, a, b) <==> exists c :: Edge(tasks, deps, a, c) && Connected(tasks, deps, c, b)
    ensures forall x :: Between(tasks, deps, a, b, x) <==>
              exists c :: Edge(tasks, deps, a, c) && Connected(tasks, deps, c, b) && (x == a || Between(tasks, deps, c, b, x))
  {
    forall p | IsPath(tasks, deps, p, a, b)
      ensures |p| > 1 && Edge(tasks, deps, a, p[1]) && IsPath(tasks, deps, p[1..], p[1], b)
    {
      PathSuffix(tasks, deps, p, a, b, 1);
    }
    forall c, p | Edge(tasks, deps, a, c) && IsPath(tasks, deps, p, c, b)
      ensures IsPath(tasks, deps, [a] + p, a, b)
    {
      PathPrepend(tasks, deps, p, c, b, a);
    }
    forall x | Between(tasks, deps, a, b, x)
      ensures exists c :: Edge(tasks, deps, a, c) && Connected(tasks, deps, c, b) && (x == a || Between(tasks, deps, c, b, x))
    {
      var p :| IsPath(tasks, deps, p, a, b) && x in p;
      assert p == [a] + p[1..];
      assert x == a || x in p[1..];
      assert Edge(tasks, deps, a, p[1]) && Connected(tasks, deps, p[1], b);
    }
    forall x, c | Edge(tasks, deps, a, c) && Connected(tasks, deps, c, b) && (x == a || Between(tasks, deps, c, b, x))
      ensures Between(tasks, deps, a, b, x)
    {
      if x == a {
        var p :| IsPath(tasks, deps, p, c, b);
        assert x in [a] + p;
      } else {
        var p :| IsPath(tasks, deps, p, c, b) && x in p;
        assert x in [a] + p;
      }
    }
    if c :| Edge(tasks, deps, a, c) && Connected(tasks, deps, c, b) {
      var p :| IsPath(tasks, deps, p, c, b);
      assert IsPath(tasks, deps, [a] + p, a, b);
    }
    if Connected(tasks, deps, a, b) {
      var p :| IsPath(tasks, deps, p, a, b);
      assert Connected(tasks, deps, p[1], b);
    }
  }

  /** The variables that the nested function of tasksbetween shares with all its own calls. */
  class ChainWalk {
    const tasks: seq<Task>
    const deps: Deps
    const endtask: Task
    var chain: seq<Task>
    var outtasks: seq<Task>

    constructor (tasks: seq<Task>, deps: Deps, endtask: Task)
      ensures this.tasks == tasks && this.deps == deps && this.endtask == endtask
      ensures chain == [] && outtasks == []
    {
      this.tasks, this.deps, this.endtask := tasks, deps, endtask;
      chain, outtasks := [], [];
    }

    /** Whether the walk would notice that it has arrived: it looks at the chain only while it goes
        through the tasks other than the end. */
    ghost predicate Notices() {
      exists k :: k in tasks && k != endtask
    }

    /** What the walk from the task adds: the chain so far and everything between the task and the end,
        if the end can be reached. */
    ghost predicate Adds(task: Task, prefix: seq<Task>, x: Task) {
      && Notices()
      && Connected(tasks, deps, task, endtask)
      && (x in prefix || Between(tasks, deps, task, endtask, x))
    }

    method FollowChain(task: Task, ghost start: Task)
      requires Acyclic(tasks, deps)
      requires forall t :: t in tasks ==> t in deps
      requires IsPath(tasks, deps, chain + [task], start, task)
      requires NoDuplicates(outtasks)
      modifies this
      decreases (set t | t in tasks) - (set t | t in chain) - {task}
      ensures chain == old(chain)
      ensures NoDuplicates(outtasks)
      ensures forall x :: x in outtasks <==> x in old(outtasks) || Adds(task, old(chain), x)
    {
      chain := chain + [task];
      ghost var prefix := chain;
      BetweenAtEnd(tasks, deps, endtask);
      if task != endtask {
        BetweenBySuccessor(tasks, deps, task, endtask);
      }
      for i := 0 to |tasks|
        invariant chain == prefix
        invariant NoDuplicates(outtasks)
        invariant task == endtask ==> forall x :: x in outtasks <==>
                    x in old(outtasks) || (x in prefix && exists k :: 0 <= k < i && tasks[k] != endtask)
        invariant task != endtask ==> forall x :: x in outtasks <==>
                    x in old(outtasks) || exists k :: 0 <= k < i && Edge(tasks, deps, task, tasks[k]) && Adds(tasks[k], prefix, x)
      {
        var othertask := tasks[i];
        assert othertask in tasks;
        if othertask == task {
          continue;
        }
        if task == endtask {
          AddChain();
        } else if task in deps[othertask] {
          assert Edge(tasks, deps, task, othertask);
          FreshSuccessor(tasks, deps, prefix, start, task, othertask);
          PathAppend(tasks, deps, prefix, start, task, othertask);
          FollowChain(othertask, start);
        }
      }
      chain := chain[..|chain| - 1];
      assert chain == old(chain);
      if task == endtask {
        NoticesIndex();
      } else {
        forall x ensures Adds(task, old(chain), x) <==>
                           exists k :: 0 <= k < |tasks| && Edge(tasks, deps, task, tasks[k]) && Adds(tasks[k], prefix, x)
        {
          AddsBySuccessor(task, old(chain), x);
        }
      }
    }

    lemma NoticesIndex()
      ensures Notices() <==> exists k :: 0 <= k < |tasks| && tasks[k] != endtask
    {
      if k :| 0 <= k < |tasks| && tasks[k] != endtask {
        assert tasks[k] in tasks;
      }
    }

    /** Away from the end, a task adds what its successors add with one more task on the chain. */
    lemma AddsBySuccessor(task: Task, prefix: seq<Task>, x: Task)
      requires task != endtask
      ensures Adds(task, prefix, x) <==>
                exists k :: 0 <= k < |tasks| && Edge(tasks, deps, task, tasks[k]) && Adds(tasks[k], prefix + [task], x)
    {
      BetweenBySuccessor(tasks, deps, task, endtask);
      if Adds(task, prefix, x) {
        if x in prefix {
          var c :| Edge(tasks, deps, task, c) && Connected(tasks, deps, c, endtask);
          var k :| 0 <= k < |tasks| && tasks[k] == c;
          assert Adds(tasks[k], prefix + [task], x);
        } else {
          var c :| Edge(tasks, deps, task, c) && Connected(tasks, deps, c, endtask)
                   && (x == task || Between(tasks, deps, c, endtask, x));
          var k :| 0 <= k < |tasks| && tasks[k] == c;
          assert Adds(tasks[k], prefix + [task], x);
        }
      }
      if k :| 0 <= k < |tasks| && Edge(tasks, deps, task, tasks[k]) && Adds(tasks[k], prefix + [task], x) {
        assert Connected(tasks, deps, task, endtask);
        assert x in prefix || x == task || Between(tasks, deps, tasks[k], endtask, x);
      }
    }

    /** The innermost loop: every task of the chain is put out once. */
    method AddChain()
      requires NoDuplicates(outtasks)
      modifies `outtasks
      ensures NoDuplicates(outtasks)
      ensures forall x :: x in outtasks <==> x in old(outtasks) || x in chain
    {
      for i := 0 to |chain|
        invariant NoDuplicates(outtasks)
        invariant forall x :: x in outtasks <==> x in old(outtasks) || x in chain[..i]
      {
        if chain[i] !in outtasks {
          outtasks := outtasks + [chain[i]];
        }
      }
    }
  }

  /** The tasks between two tasks, each once: exactly those on a dependency chain from start to end. The
      one exception is a recipe with no task besides the end, for which nothing is returned. */
  method TasksBetweenTwo(start: Task, end: Task, tasks: seq<Task>, deps: Deps) returns (outtasks: seq<Task>)
    requires Acyclic(tasks, deps)
    requires forall t :: t in tasks ==> t in deps
    ensures NoDuplicates(outtasks)
    ensures (exists k :: k in tasks && k != end) ==> forall x :: x in outtasks <==> Between(tasks, deps, start, end, x)
    ensures !(exists k :: k in tasks && k != end) ==> outtasks == []
  {
    var walk := new ChainWalk(tasks, deps, end);
    assert [] + [start] == [start];
    walk.FollowChain(start, start);
    outtasks := walk.outtasks;
    assert forall x :: Between(tasks, deps, start, end, x) ==> Connected(tasks, deps, start, end);
    if outtasks != [] {
      assert outtasks[0] in outtasks;
    }
  }

  // ---- where the dependency lists come from ----

  function WithPrefix(task: string): Task {
    if |task| >= 3 && task[..3] == "do_" then task else "do_" + task
  }

  /** The prefix is there once. */
  lemma PrefixOnce(name: string)
    ensures WithPrefix("do_" + name) == "do_" + name
    ensures !("do_" <= name) ==> WithPrefix(name) == "do_" + name
  {
  }

  ghost function DepsIn(deps: Deps, t: Task): seq<Task> {
    if t in deps then deps[t] else []
  }

  /** Besides what deps0 says, the task runs after the ones in `after` and before the ones in `before`. */
  ghost predicate Ordered(deps0: Deps, deps: Deps, task: Task, before: seq<Task>, after: seq<Task>) {
    forall t, x :: OrderedAt(deps0, deps, task, before, after, t, x)
  }

  ghost predicate OrderedAt(deps0: Deps, deps: Deps, task: Task, before: seq<Task>, after: seq<Task>, t: Task, x: Task) {
    x in DepsIn(deps, t) <==> x in DepsIn(deps0, t) || (t == task && x in after) || (t in before && x == task)
  }

  lemma OrderedAfter(deps: Deps, task: Task, existing: seq<Task>, after: seq<Task>)
    requires forall x :: x in existing <==> x in DepsIn(deps, task) || x in after
    ensures Ordered(deps, deps[task := existing], task, [], after)
  {
    var deps' := deps[task := existing];
    forall t, x ensures OrderedAt(deps, deps', task, [], after, t, x) {
      if t == task {
        assert DepsIn(deps', t) == existing;
      } else {
        assert DepsIn(deps', t) == DepsIn(deps, t);
      }
    }
  }

  lemma OrderedBefore(deps0: Deps, deps: Deps, deps': Deps, task: Task, before: seq<Task>, entry: Task)
    requires Ordered(deps0, deps, task, before, [])
    requires deps' == if task in DepsIn(deps, entry) then deps else deps[entry := [task] + DepsIn(deps, entry)]
    ensures Ordered(deps0, deps', task, before + [entry], [])
  {
    forall t, x ensures OrderedAt(deps0, deps', task, before + [entry], [], t, x) {
      assert OrderedAt(deps0, deps, task, before, [], t, x);
      assert t in before + [entry] <==> t in before || t == entry;
      if t != entry {
        assert DepsIn(deps', t) == DepsIn(deps, t);
      } else if task !in DepsIn(deps, entry) {
        assert DepsIn(deps', t) == [task] + DepsIn(deps, t);
        assert x in [task] + DepsIn(deps, t) <==> x == task || x in DepsIn(deps, t);
      }
    }
  }

  lemma OrderedCompose(deps0: Deps, deps1: Deps, deps2: Deps, task: Task, before: seq<Task>, after: seq<Task>)
    requires Ordered(deps0, deps1, task, [], after)
    requires Ordered(deps1, deps2, task, before, [])
    ensures Ordered(deps0, deps2, task, before, after)
  {
    forall t, x ensures OrderedAt(deps0, deps2, task, before, after, t, x) {
      assert OrderedAt(deps0, deps1, task, [], after, t, x);
      assert OrderedAt(deps1, deps2, task, before, [], t, x);
    }
  }

  /** The task list of a recipe and the flags of its tasks. */
  class TaskList {
    var bbtasks: seq<Task>
    var isTask: set<Task>
    var deps: Deps

    constructor ()
      ensures Valid()
      ensures bbtasks == [] && isTask == {} && deps == map[]
    {
      bbtasks, isTask, deps := [], {}, map[];
    }

    /** Listed tasks are the flagged ones, each has a dependency list, and no list repeats itself. */
    ghost predicate Valid()
      reads this
    {
      && NoDuplicates(bbtasks)
      && (forall t :: t in bbtasks <==> t in isTask)
      && (forall t :: t in isTask ==> t in deps)
      && (forall t :: t in deps ==> NoDuplicates(deps[t]))
    }

    /** Adds a task after some tasks and before others. */
    method AddTask(name: string, before: seq<Task>, after: seq<Task>)
      requires Valid()
      modifies this
      ensures Valid()
      ensures isTask == old(isTask) + {WithPrefix(name)}
      ensures old(bbtasks) <= bbtasks
      ensures Ordered(old(deps), deps, WithPrefix(name), before, after)
    {
      var task := WithPrefix(name);
      isTask := isTask + {task};
      if task !in bbtasks {
        bbtasks := bbtasks + [task];
      }
      var existing := if task in deps then deps[task] else [];
      for i := 0 to |after|
        invariant NoDuplicates(existing)
        invariant forall x :: x in existing <==> x in DepsIn(old(deps), task) || x in after[..i]
      {
        assert after[..i + 1] == after[..i] + [after[i]];
        if after[i] !in existing {
          existing := existing + [after[i]];
        }
      }
      assert after[..|after|] == after;
      deps := deps[task := existing];
      ghost var deps0, deps1 := old(deps), deps;
      OrderedAfter(deps0, task, existing, after);
      AddBefore(task, before);
      OrderedCompose(deps0, deps1, deps, task, before, after);
    }

    method AddBefore(task: Task, before: seq<Task>)
      requires Valid()
      modifies `deps
      ensures Valid()
      ensures Ordered(old(deps), deps, task, before, [])
    {
      for i := 0 to |before|
        invariant Valid()
        invariant Ordered(old(deps), deps, task, before[..i], [])
      {
        var entry := before[i];
        assert before[..i + 1] == before[..i] + [entry];
        var existing := if entry in deps then deps[entry] else [];
        ghost var deps1 := deps;
        if task !in existing {
          deps := deps[entry := [task] + existing];
        }
        OrderedBefore(old(deps), deps1, deps, task, before[..i], entry);
      }
      assert before[..|before|] == before;
    }
  }
}
