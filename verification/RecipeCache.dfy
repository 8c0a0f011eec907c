/** What the parsed recipes say. */
module RecipeCache {
  import opened FailurePropagation
  import opened Sequences

  type Task = string

  /** Inter-task dependencies of one task, split into (target, task). */
  datatype TaskEntry = TaskEntry(idepends: seq<(Name, Task)>, irdepends: seq<(Name, Task)>)

  ghost function NamesOf(s: seq<(Name, Task)>): set<Name> {
    set p | p in s :: p.0
  }

  /** The targets of one task entry. */
  ghost function TargetsOf(entry: TaskEntry): set<Target> {
    (set n | n in NamesOf(entry.idepends) :: Build(n)) + (set n | n in NamesOf(entry.irdepends) :: Run(n))
  }

  /** The two provider dictionaries as one. */
  ghost function Combined(build: map<Name, seq<Fn>>, run: map<Name, seq<Fn>>): (m: map<Target, seq<Fn>>)
    ensures forall n :: Build(n) in m <==> n in build
    ensures forall n :: Run(n) in m <==> n in run
    ensures forall n :: n in build ==> m[Build(n)] == build[n]
    ensures forall n :: n in run ==> m[Run(n)] == run[n]
  {
    map t | t in (set n | n in build :: Build(n)) + (set n | n in run :: Run(n)) ::
      if t.Build? then build[t.name] else run[t.name]
  }

  /** What the parsed recipes say. `providers` and `rproviders` hold the outcome of provider selection
      for every name that has candidates; the number is the count of preferred run-time providers. */
  datatype DataCache = DataCache(
    ignored: Name -> bool,
    providers: map<Name, seq<Fn>>,
    rproviders: map<Name, (seq<Fn>, nat)>,
    tasks: map<Fn, seq<(Task, TaskEntry)>>,
    deps: map<Fn, seq<Name>>,
    rdeps: map<Fn, seq<Name>>)
  {
    /** Every selectable file was parsed. */
    ghost predicate Complete() {
      && deps.Keys == tasks.Keys && rdeps.Keys == tasks.Keys
      && (forall n, f :: n in providers && f in providers[n] ==> f in tasks)
      && (forall n, f :: n in rproviders && f in rproviders[n].0 ==> f in tasks)
      && (forall n {:trigger NoDuplicates(providers[n])} :: n in providers ==> NoDuplicates(providers[n]))
      && (forall n {:trigger NoDuplicates(rproviders[n].0)} :: n in rproviders ==> NoDuplicates(rproviders[n].0))
    }

    /** The recipe of the file asks for a target that has failed. */
    ghost predicate NeedsGone(fn: Fn, gone: set<Target>) {
      || (fn in deps && exists n :: n in deps[fn] && Build(n) in gone)
      || (fn in rdeps && exists n :: n in rdeps[fn] && Run(n) in gone)
    }

    /** Candidates of both kinds of target, in order of preference. */
    ghost function Candidates(): map<Target, seq<Fn>> {
      Combined(providers, map n | n in rproviders :: rproviders[n].0)
    }

    /** No candidate for the name is left. */
    ghost predicate NoCandidate(item: Name, failed: set<Fn>) {
      item in providers ==> forall f :: f in providers[item] ==> f in failed
    }

    /** The targets that the tasks of a file ask for. */
    ghost function TaskTargets(f: Fn): set<Target> {
      if f !in tasks then {} else set i, t | 0 <= i < |tasks[f]| && t in TargetsOf(tasks[f][i].1) :: t
    }

    /** All targets that a file asks for: its recipe depends on them, or one of its tasks does. */
    ghost function AskedBy(f: Fn): set<Target> {
      (set n | f in deps && n in deps[f] :: Build(n)) + (set n | f in rdeps && n in rdeps[f] :: Run(n)) + TaskTargets(f)
    }

    ghost predicate Asks(f: Fn, t: Target) {
      t in AskedBy(f)
    }

    /** Every target name a parsed file can bring in. */
    ghost function Mentioned(): set<Target> {
      set f, t | f in deps.Keys + rdeps.Keys + tasks.Keys && t in AskedBy(f) :: t
    }

    /** What a target can fail for when the files in c do: there is no candidate, or more than one preferred
        run-time candidate, or the first candidate is in c. */
    ghost predicate Hopeless(t: Target, c: set<Fn>) {
      && !ignored(t.name)
      && match t
         case Build(n) => n !in providers || providers[n] == [] || providers[n][0] in c
         case Run(n) => n !in rproviders || rproviders[n].0 == [] || rproviders[n].0[0] in c || rproviders[n].1 > 1
    }

    /** Every file that asks for such a target is in c. */
    ghost predicate HoldsDoomed(c: set<Fn>) {
      forall f, t :: Asks(f, t) && Hopeless(t, c) ==> f in c
    }

    /** The files hold every candidate of the targets, and the targets all that the files ask for. */
    ghost predicate HoldsReached(files: set<Fn>, targets: set<Target>) {
      && (forall t, f :: t in targets && t in Candidates() && f in Candidates()[t] ==> f in files)
      && (forall f :: f in files ==> AskedBy(f) <= targets)
    }

    /** Every name the parsed files mention has a candidate, and no run-time name has more than one preferred. */
    ghost predicate Provides() {
      forall f, t :: Asks(f, t) && !ignored(t.name) ==>
        match t
        case Build(n) => n in providers && providers[n] != []
        case Run(n) => n in rproviders && rproviders[n].0 != [] && rproviders[n].1 <= 1
    }
  }

  ghost function SetOf<T>(s: seq<T>): set<T> {
    set x | x in s
  }

  /** The task entries of one file; a task listed again replaces what was there. */
  ghost function EntriesOf(fn: Fn, tasks: seq<(Task, TaskEntry)>): map<(Fn, Task), TaskEntry> {
    if tasks == [] then map[]
    else
      var last := tasks[|tasks| - 1];
      EntriesOf(fn, tasks[..|tasks| - 1])[(fn, last.0) := last.1]
  }

  lemma {:induction false} EntriesListed(fn: Fn, tasks: seq<(Task, TaskEntry)>, tid: (Fn, Task))
    requires tid in EntriesOf(fn, tasks)
    ensures tid.0 == fn && exists i :: 0 <= i < |tasks| && tasks[i].1 == EntriesOf(fn, tasks)[tid]
  {
    var n := |tasks| - 1;
    if tid != (fn, tasks[n].0) {
      EntriesListed(fn, tasks[..n], tid);
      var i :| 0 <= i < n && tasks[..n][i].1 == EntriesOf(fn, tasks[..n])[tid];
      assert tasks[i].1 == EntriesOf(fn, tasks)[tid];
    } else {
      assert tasks[n].1 == EntriesOf(fn, tasks)[tid];
    }
  }
}
