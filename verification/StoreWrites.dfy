/** The flat effects of the writes, step by step, and the walk over the names. */
module StoreWrites {
  import opened DataStore
  import opened Options
  import opened Sequences
  import opened Strings

  // ---- layers ----

  /** A new own layer changes nothing. */
  lemma NewLayer(rest: seq<Vars>)
    ensures Flat([map[]] + rest) == Flat(rest)
  {
    var stack: seq<Vars> := [map[]] + rest;
    assert stack[1..] == rest;
    assert Flat(stack).Keys == Flat(rest).Keys;
  }

  lemma OwnIsVisible(stack: seq<Vars>, n: Name)
    requires stack != [] && n in stack[0]
    ensures At(Flat(stack), n) == stack[0][n]
  {
    FlatIsFind(stack, n);
  }

  /** Writing what is already visible changes nothing. */
  lemma PutVisible(stack: seq<Vars>, n: Name)
    ensures At(Flat(stack), n) == FindOr(stack, n)
    ensures Put(Flat(stack), n, FindOr(stack, n)) == Flat(stack)
  {
    FlatIsFind(stack, n);
  }

  // ---- writes, and what their steps do ----

  ghost function FlagStored(s: Flattened, n: Name, flag: Flag, value: string, filed: bool): Flattened {
    var e := At(s.vars, n);
    Flattened(Put(s.vars, n, e.(flags := e.flags[flag := value])),
              if filed && '_' in n then UpdateOverrides(s.index, n) else s.index)
  }

  ghost function OperationStored(s: Flattened, base: Name, k: Keyword, op: Op): Flattened {
    var e := At(s.vars, base);
    Flattened(Put(s.vars, base, e.WithOps(k, e.Ops(k) + [op])), UpdateOverrides(s.index, base))
  }

  /** Without the conditional variables of n that are in force, and n filed anew. */
  ghost function Refiled(s: Flattened, n: Name, overrides: seq<string>): Flattened {
    var s1 := Displaced(s, n, overrides);
    s1.(index := if '_' in n then UpdateOverrides(s1.index - {n}, n) else s1.index - {n})
  }

  ghost function OpsCleared(s: Flattened, n: Name): Flattened {
    s.(vars := Put(s.vars, n, Entry(At(s.vars, n).flags, [], [], [])))
  }

  /** The first round of _setvar_update_overrides. */
  lemma UpdateStarts(index: Index, name: Name)
    ensures var i := LastUnderscore(name);
      UpdateOverrides(index, name) ==
      if i >= 0 then AddSplits(index, name, i)
      else if name != "" && LooksLikeOverride(name) then AddPair(index, name[..|name| - 1], name, name)
      else index
  {
  }

  lemma SplitStep(index: Index, name: Name, i: nat)
    requires i < |name| && LooksLikeOverride(name[i + 1..])
    ensures var index', j := AddPair(index, name[..i], name, name[i + 1..]), LastUnderscore(name[..i]);
      AddSplits(index, name, i) == if j <= 0 then index' else AddSplits(index', name, j)
  {
    hide AddPair, LooksLikeOverride, LastUnderscore;
  }

  lemma SplitStop(index: Index, name: Name, i: nat)
    requires i < |name| && !LooksLikeOverride(name[i + 1..])
    ensures AddSplits(index, name, i) == index
  {
  }

  lemma RemoveStep(index: Index, name: Name, i: nat)
    requires i < |name| && IsLower(name[i + 1..])
    ensures var index', j := RemovePair(index, name[..i], name, name[i + 1..]), LastUnderscore(name[..i]);
      RemoveSplits(index, name, i) == if j <= 0 then index' else RemoveSplits(index', name, j)
  {
    hide RemovePair, IsLower, LastUnderscore;
  }

  lemma RemoveStop(index: Index, name: Name, i: nat)
    requires i < |name| && !IsLower(name[i + 1..])
    ensures RemoveSplits(index, name, i) == index
  {
  }

  lemma ForgetStarts(index: Index, name: Name)
    ensures var i := LastUnderscore(name);
      ForgetOverrides(index, name) == if i >= 0 then RemoveSplits(index - {name}, name, i) else index - {name}
  {
  }

  lemma NameDeleted(s: Flattened, overrides: seq<string>, n: Name)
    ensures FlatWriteOne(s, overrides, DelVar(n)) == FlatDel(s, n)
  {
  }

  lemma FlagWritten(s: Flattened, overrides: seq<string>, n: Name, flag: Flag, value: string)
    ensures FlatWriteOne(s, overrides, SetVarFlag(n, flag, value)) == FlagStored(s, n, flag, value, flag == DEFAULTVAL)
  {
  }

  lemma FlagDeleted(s: Flattened, overrides: seq<string>, n: Name, flag: Flag)
    ensures FlatWriteOne(s, overrides, DelVarFlag(n, flag)) == s.(vars := Put(s.vars, n, At(s.vars, n).Without(flag)))
  {
  }

  lemma {:induction false} FlatDelAllVars(s: Flattened, names: seq<Name>)
    ensures FlatDelAll(s, names).vars == s.vars - (set a | a in names)
  {
    if names != [] {
      var init := names[..|names| - 1];
      FlatDelAllVars(s, init);
      assert names == init + [names[|names| - 1]];
    }
  }

  lemma {:induction false} FlatDelAllSameIndex(s: Flattened, t: Flattened, names: seq<Name>)
    requires s.index == t.index
    ensures FlatDelAll(s, names).index == FlatDelAll(t, names).index
  {
    if names != [] {
      FlatDelAllSameIndex(s, t, names[..|names| - 1]);
    }
  }

  /** Clearing the operations of n before the deletions and writing n after them is writing n once. */
  lemma ClearedThenWritten(s: Flattened, n: Name, cleared: Entry, names: seq<Name>, e: Entry)
    requires n !in names
    ensures Put(FlatDelAll(s.(vars := Put(s.vars, n, cleared)), names).vars, n, e) == Put(FlatDelAll(s, names).vars, n, e)
    ensures FlatDelAll(s.(vars := Put(s.vars, n, cleared)), names).index == FlatDelAll(s, names).index
  {
    var s' := s.(vars := Put(s.vars, n, cleared));
    FlatDelAllVars(s, names);
    FlatDelAllVars(s', names);
    FlatDelAllSameIndex(s', s, names);
    var left, right := Put(FlatDelAll(s', names).vars, n, e), Put(FlatDelAll(s, names).vars, n, e);
    assert left.Keys == right.Keys;
    assert forall m :: m in left ==> left[m] == right[m];
  }

  lemma DisplacedNames(s: Flattened, n: Name, cleared: Entry, overrides: seq<string>)
    requires Longer(s.index)
    ensures var names := if n in s.index then ActiveNames(s.index[n], overrides) else [];
      && n !in names
      && Displaced(s, n, overrides) == FlatDelAll(s, names)
      && Displaced(s.(vars := Put(s.vars, n, cleared)), n, overrides) == FlatDelAll(s.(vars := Put(s.vars, n, cleared)), names)
  {
    if n in s.index {
      ActiveNotSelf(s.index, n, overrides);
    }
  }

  lemma ContentWritten(s: Flattened, overrides: seq<string>, n: Name, value: string)
    requires ParseKeyword(n, 0).None?
    ensures var t := Refiled(s, n, overrides);
      FlatWriteOne(s, overrides, SetVar(n, value, false)) ==
      t.(vars := Put(t.vars, n, Entry(At(s.vars, n).flags[CONTENT := value], [], [], [])))
  {
  }

  lemma ParsedWritten(s: Flattened, overrides: seq<string>, n: Name, value: string)
    requires ParseKeyword(n, 0).None?
    ensures FlatWriteOne(s, overrides, SetVar(n, value, true)) == FlagStored(s, n, CONTENT, value, true)
  {
  }

  lemma OperationWritten(s: Flattened, overrides: seq<string>, n: Name, value: string, parsing: bool)
    requires ParseKeyword(n, 0).Some?
    ensures var (base, k, add) := ParseKeyword(n, 0).value;
      FlatWriteOne(s, overrides, SetVar(n, value, parsing)) == OperationStored(s, base, k, Op(value, add))
  {
  }

  /** The steps of setVar add up to the write on the flat map. */
  lemma ContentSteps(s: Flattened, n: Name, overrides: seq<string>, value: string)
    requires ParseKeyword(n, 0).None? && Longer(s.index)
    ensures var t := Refiled(OpsCleared(s, n), n, overrides);
      FlatWriteOne(s, overrides, SetVar(n, value, false)) ==
      t.(vars := Put(t.vars, n, Entry(At(s.vars, n).flags[CONTENT := value], [], [], [])))
  {
    hide FlatWriteOne, UpdateOverrides, Put, FlatDelAll, Displaced, Longer, At, ParseKeyword;
    var cleared := Entry(At(s.vars, n).flags, [], [], []);
    DisplacedNames(s, n, cleared, overrides);
    ContentWritten(s, overrides, n, value);
    var names := if n in s.index then ActiveNames(s.index[n], overrides) else [];
    ClearedThenWritten(s, n, cleared, names, Entry(cleared.flags[CONTENT := value], [], [], []));
  }

  lemma ActiveNotSelf(index: Index, n: Name, overrides: seq<string>)
    requires Longer(index) && n in index
    ensures n !in ActiveNames(index[n], overrides)
  {
  }

  // ---- what a deletion and a write list ----

  lemma {:induction false} RemoveSplitsFewer(index: Index, name: Name, i: nat)
    requires i < |name|
    ensures forall b, p :: Lists(RemoveSplits(index, name, i), b, p) ==> Lists(index, b, p)
    decreases i
  {
    if IsLower(name[i + 1..]) {
      var index' := RemovePair(index, name[..i], name, name[i + 1..]);
      if name[..i] in index {
        RemoveFirstIn(index[name[..i]], (name, name[i + 1..]));
      }
      var j := LastUnderscore(name[..i]);
      if j > 0 {
        RemoveSplitsFewer(index', name, j);
      }
    }
  }

  lemma ForgetFewer(index: Index, name: Name)
    ensures forall b, p :: Lists(ForgetOverrides(index, name), b, p) ==> Lists(index, b, p)
  {
    var i := LastUnderscore(name);
    if i >= 0 {
      RemoveSplitsFewer(index - {name}, name, i);
    }
  }

  lemma {:induction false} DelAllFewer(s: Flattened, names: seq<Name>)
    ensures forall b, p :: Lists(FlatDelAll(s, names).index, b, p) ==> Lists(s.index, b, p)
  {
    if names != [] {
      DelAllFewer(s, names[..|names| - 1]);
      ForgetFewer(FlatDelAll(s, names[..|names| - 1]).index, names[|names| - 1]);
    }
  }

  /** What setVar lists: nothing new but the name itself, under its splits. */
  lemma ContentLists(s: Flattened, overrides: seq<string>, n: Name, value: string)
    requires ParseKeyword(n, 0).None?
    ensures var after := FlatWriteOne(s, overrides, SetVar(n, value, false)).index;
      && (forall b, p :: Lists(after, b, p) ==> Lists(s.index, b, p) || (p.0 == n && (b, p.1) in FiledSplits(n)))
      && (forall b, o :: '_' in n && (b, o) in FiledSplits(n) ==> Lists(after, b, (n, o)))
  {
    hide ParseKeyword, FlatWriteOne, UpdateOverrides, FiledSplits, FlatDelAll;
    ContentWritten(s, overrides, n, value);
    if n in s.index {
      DelAllFewer(s, ActiveNames(s.index[n], overrides));
    }
    UpdateOverridesLists(Displaced(s, n, overrides).index - {n}, n);
  }

  /** And it leaves shorter variables alone. */
  lemma ContentKeeps(s: Flattened, overrides: seq<string>, n: Name, value: string, m: Name)
    requires ParseKeyword(n, 0).None? && Longer(s.index) && |m| < |n|
    ensures At(FlatWriteOne(s, overrides, SetVar(n, value, false)).vars, m) == At(s.vars, m)
  {
    hide ParseKeyword, FlatWriteOne, UpdateOverrides, FlatDelAll;
    ContentWritten(s, overrides, n, value);
    if n in s.index {
      var names := ActiveNames(s.index[n], overrides);
      FlatDelAllVars(s, names);
    }
  }

  // ---- iteration ----

  /** The names with a conditional variable in force. */
  ghost function Conditional(index: Index, overrides: seq<string>): set<Name> {
    set n | n in index && exists p :: p in index[n] && InForce(p.1, overrides)
  }

  lemma {:induction false} ActiveIffInForce(pairs: seq<(Name, string)>, overrides: seq<string>)
    ensures ActiveNames(pairs, overrides) != [] <==> exists p :: p in pairs && InForce(p.1, overrides)
  {
    if pairs != [] {
      ActiveIffInForce(pairs[1..], overrides);
      assert pairs == [pairs[0]] + pairs[1..];
    }
  }

  /** The names of one layer that are not hidden: those the walk lists, and those it marks as deleted. */
  ghost function Listed(vars: Vars, deleted: set<Name>, skipped: set<Name>): set<Name> {
    set n | n in vars && vars[n] != EMPTY && n !in deleted && n !in skipped
  }

  ghost function Hidden(vars: Vars, deleted: set<Name>, skipped: set<Name>): set<Name> {
    set n | n in vars && vars[n] == EMPTY && n !in deleted && n !in skipped
  }

  lemma NoLayers(stack: seq<Vars>)
    ensures stack == [] ==> Flat(stack) == map[]
  {
  }

  /** One layer of the walk: what it lists and what it hides account for the flat map. */
  lemma WalkLayer(stack: seq<Vars>, deleted: set<Name>, skipped: set<Name>)
    requires stack != []
    ensures Flat(stack).Keys - deleted - skipped ==
            Listed(stack[0], deleted, skipped)
            + (Flat(stack[1..]).Keys - (deleted + Hidden(stack[0], deleted, skipped)) - skipped)
  {
    forall n ensures n in Flat(stack) <==> (n in stack[0] && stack[0][n] != EMPTY) || (n !in stack[0] && n in Flat(stack[1..])) {
      FlatIsFind(stack, n);
      FlatIsFind(stack[1..], n);
    }
  }
}
