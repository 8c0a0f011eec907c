/** The variable store itself: writes that leave shared objects alone, copies, iteration, and reads through
    the expansion cache. */
module DataSmartModel {
  import opened DataStore
  import opened Options
  import opened Strings
  import opened OverrideChoice
  import opened Expansion
  import opened ExpandCache
  import opened StoreObjects
  import opened StoreWrites

  class DataSmart {
    const chain: Chain
    const index: OverrideIndex
    /** OVERRIDES, split and resolved. */
    const overrides: seq<string>
    var expandCache: map<string, Option<string>>

    ghost predicate Valid()
      reads this`expandCache, chain, chain.layers, chain.dicts, chain.lists, index, index.lists
    {
      chain.Valid() && index.Valid() && Longer(index.pairs) && CacheSound(View(), expandCache)
    }

    /** What evaluation sees. */
    ghost function View(): Store
      reads chain, index
    {
      Store(chain.vars, index.pairs, overrides)
    }

    ghost function State(): Flattened
      reads chain, index
    {
      Flattened(chain.vars, index.pairs)
    }

    /** A store that may be read: no variable behind an override has an ambiguous name. */
    ghost predicate Ready()
      reads this`expandCache, chain, chain.layers, chain.dicts, chain.lists, index, index.lists
    {
      Settled() && CacheSound(View(), expandCache)
    }

    /** The same, whatever the cache holds. */
    ghost predicate Settled()
      reads chain, chain.layers, chain.dicts, chain.lists, index, index.lists
    {
      chain.Valid() && index.Valid() && Longer(index.pairs) && Unambiguous(index.pairs)
    }

    constructor (resolved: seq<string>)
      ensures Valid() && fresh(chain) && fresh(chain.layers) && |chain.layers| == 1 && chain.own == {} && fresh(index)
      ensures State() == Flattened(map[], map[]) && overrides == resolved && expandCache == map[]
    {
      chain := new Chain();
      index := new OverrideIndex();
      overrides := resolved;
      expandCache := map[];
    }

    constructor Over(parent: DataSmart, resolved: seq<string>)
      requires parent.Valid()
      ensures Valid() && fresh(chain) && fresh(chain.layers[0]) && chain.own == {} && fresh(index)
      ensures chain.layers[1..] == parent.chain.layers && index.table == parent.index.table
      ensures State() == parent.State() && overrides == resolved && expandCache == map[]
    {
      hide CacheSound, Chain.Valid, OverrideIndex.Valid, Longer;
      chain := new Chain.Over(parent.chain);
      index := new OverrideIndex.Shallow(parent.index);
      overrides := resolved;
      expandCache := map[];
      new;
      EmptyCacheSound(View());
    }

    /** createCopy: the layers and the lists of the index are shared. The overrides the copy resolves on
        first use are given. */
    method CreateCopy(resolved: seq<string>) returns (copy: DataSmart)
      requires Valid()
      ensures copy.Valid() && fresh(copy) && fresh(copy.chain) && fresh(copy.chain.layers[0]) && fresh(copy.index)
      ensures copy.chain.own == {}
      ensures copy.chain.layers[1..] == chain.layers && copy.index.table == index.table
      ensures copy.State() == State() && copy.overrides == resolved
    {
      copy := new DataSmart.Over(this, resolved);
    }

    // ---- the writes ----

    /** setVar. The parser calls it with parsing=True, which leaves operations and conditional variables alone. */
    method SetVar(n: Name, value: string, parsing: bool)
      requires Valid()
      modifies this, chain, chain.layers[0], chain.own, index
      ensures Valid() && expandCache == map[] && chain.OwnOrFresh()
      ensures State() == FlatWriteOne(old(State()), overrides, Write.SetVar(n, value, parsing))
    {
      hide Chain.Valid, OverrideIndex.Valid, Longer, FlatWriteOne, CacheSound;
      FlatWriteLonger(State(), overrides, Write.SetVar(n, value, parsing));
      chain.HasOwn();
      expandCache := map[];
      Assign(n, value, parsing);
      EmptyCacheSound(View());
    }

    /** delVar: an empty dictionary in the own layer, and the name taken out of the index. */
    method DelVar(n: Name)
      requires Valid()
      modifies this, chain, chain.layers[0], index
      ensures Valid() && expandCache == map[] && chain.OwnOrFresh()
      ensures State() == FlatWriteOne(old(State()), overrides, Write.DelVar(n))
    {
      hide Chain.Valid, OverrideIndex.Valid, Longer, FlatWriteOne, CacheSound;
      FlatWriteLonger(State(), overrides, Write.DelVar(n));
      NameDeleted(State(), overrides, n);
      chain.HasOwn();
      expandCache := map[];
      EraseVar(n);
      EmptyCacheSound(View());
    }

    /** setVarFlag, for flags other than export and unexport. */
    method SetVarFlag(n: Name, flag: Flag, value: string)
      requires Valid()
      modifies this, chain, chain.layers[0], chain.own, index
      ensures Valid() && expandCache == map[] && chain.OwnOrFresh()
      ensures State() == FlatWriteOne(old(State()), overrides, Write.SetVarFlag(n, flag, value))
    {
      hide Chain.Valid, OverrideIndex.Valid, Longer, FlatWriteOne, CacheSound;
      FlatWriteLonger(State(), overrides, Write.SetVarFlag(n, flag, value));
      chain.HasOwn();
      expandCache := map[];
      StoreFlag(n, flag, value, flag == DEFAULTVAL);
      FlagWritten(old(State()), overrides, n, flag, value);
      EmptyCacheSound(View());
    }

    /** delVarFlag. */
    method DelVarFlag(n: Name, flag: Flag)
      requires Valid()
      modifies this, chain, chain.layers[0], chain.own, index
      ensures Valid() && expandCache == map[] && chain.OwnOrFresh()
      ensures State() == FlatWriteOne(old(State()), overrides, Write.DelVarFlag(n, flag))
    {
      hide Chain.Valid, OverrideIndex.Valid, Longer, FlatWriteOne, CacheSound, Put, At, Entry.Without;
      FlatWriteLonger(State(), overrides, Write.DelVarFlag(n, flag));
      chain.HasOwn();
      expandCache := map[];
      chain.DropFlag(n, flag);
      FlagDeleted(old(State()), overrides, n, flag);
      EmptyCacheSound(View());
    }

    // ---- what they do to layers and index ----

    /** The steps of setVarFlag, and of setVar with parsing=True. */
    method StoreFlag(n: Name, flag: Flag, value: string, filed: bool)
      requires chain.Valid() && index.Valid()
      modifies chain, chain.layers[0], chain.own, index
      ensures chain.Valid() && index.Valid() && chain.OwnOrFresh()
      ensures State() == FlagStored(old(State()), n, flag, value, filed)
    {
      hide Chain.Valid, OverrideIndex.Valid, UpdateOverrides, Put, At;
      chain.HasOwn();
      chain.SetFlag(n, flag, value);
      if filed && '_' in n {
        index.Update(n);
      }
    }

    /** setVar of a name with an operation keyword. */
    method StoreOperation(base: Name, k: Keyword, op: Op)
      requires chain.Valid() && index.Valid()
      modifies chain, chain.layers[0], chain.own, index
      ensures chain.Valid() && index.Valid() && chain.OwnOrFresh()
      ensures State() == OperationStored(old(State()), base, k, op)
    {
      hide Chain.Valid, OverrideIndex.Valid, UpdateOverrides, Put, At;
      chain.HasOwn();
      chain.AddOp(base, k, op);
      index.Update(base);
    }

    method EraseVar(n: Name)
      requires chain.Valid() && index.Valid()
      modifies chain, chain.layers[0], index
      ensures chain.Valid() && index.Valid() && chain.OwnOrFresh()
      ensures State() == FlatDel(old(State()), n)
      ensures forall m :: m != n && m in old(chain.layers[0].vars) ==>
                m in chain.layers[0].vars && chain.layers[0].vars[m] == old(chain.layers[0].vars[m])
    {
      hide Chain.Valid, OverrideIndex.Valid, ForgetOverrides, Put;
      chain.HasOwn();
      chain.Erase(n);
      index.Forget(n);
    }

    /** The loop that collects the conditional variables in force. */
    method CollectActive(pairs: seq<(Name, string)>) returns (active: seq<Name>)
      ensures active == ActiveNames(pairs, overrides)
    {
      active := [];
      for i := 0 to |pairs|
        invariant active + ActiveNames(pairs[i..], overrides) == ActiveNames(pairs, overrides)
      {
        assert pairs[i..][1..] == pairs[i + 1..];
        if InForce(pairs[i].1, overrides) {
          active := active + [pairs[i].0];
        }
      }
    }

    /** The loop that deletes them. */
    method DeleteAll(names: seq<Name>)
      requires chain.Valid() && index.Valid()
      modifies chain, chain.layers[0], index
      ensures chain.Valid() && index.Valid() && chain.OwnOrFresh()
      ensures State() == FlatDelAll(old(State()), names)
      ensures forall n :: n !in names && n in old(chain.layers[0].vars) ==>
                n in chain.layers[0].vars && chain.layers[0].vars[n] == old(chain.layers[0].vars[n])
    {
      hide Chain.Valid, OverrideIndex.Valid, FlatDel;
      chain.HasOwn();
      for i := 0 to |names|
        invariant chain.Valid() && index.Valid() && chain.OwnOrFresh()
        invariant State() == FlatDelAll(old(State()), names[..i])
        invariant forall n :: n !in names && n in old(chain.layers[0].vars) ==>
                    n in chain.layers[0].vars && chain.layers[0].vars[n] == old(chain.layers[0].vars[n])
      {
        assert names[..i + 1][..i] == names[..i];
        EraseVar(names[i]);
      }
      assert names[..|names|] == names;
    }

    /** Deletes the conditional variables of n that are in force, and forgets the others. */
    method Displace(n: Name)
      requires chain.Valid() && index.Valid() && Longer(index.pairs) && n in chain.layers[0].vars
      modifies chain, chain.layers[0], index
      ensures chain.Valid() && index.Valid() && chain.OwnOrFresh()
      ensures var s1 := Displaced(old(State()), n, overrides); State() == s1.(index := s1.index - {n})
      ensures n in chain.layers[0].vars && chain.layers[0].vars[n] == old(chain.layers[0].vars[n])
    {
      hide Chain.Valid, OverrideIndex.Valid, FlatDelAll, ActiveNames, Longer;
      chain.HasOwn();
      index.PairsAt(n);
      if n in index.table {
        DisplaceListed(n);
      } else {
        assert index.pairs - {n} == index.pairs;
      }
    }

    method DisplaceListed(n: Name)
      requires chain.Valid() && index.Valid() && Longer(index.pairs) && n in chain.layers[0].vars && n in index.table
      modifies chain, chain.layers[0], index
      ensures chain.Valid() && index.Valid() && chain.OwnOrFresh()
      ensures n in old(index.pairs)
      ensures var s1 := FlatDelAll(old(State()), ActiveNames(old(index.pairs)[n], overrides));
        State() == s1.(index := s1.index - {n})
      ensures n in chain.layers[0].vars && chain.layers[0].vars[n] == old(chain.layers[0].vars[n])
    {
      hide Chain.Valid, OverrideIndex.Valid, FlatDelAll, ActiveNames, Longer;
      chain.HasOwn();
      index.PairsAt(n);
      ActiveNotSelf(index.pairs, n, overrides);
      var active := CollectActive(index.table[n].items);
      FlatDelAllIndex(State(), active);
      DeleteAll(active);
      index.PairsAt(n);
      index.Drop(n);
    }

    method Refile(n: Name)
      requires chain.Valid() && index.Valid() && Longer(index.pairs) && n in chain.layers[0].vars
      modifies chain, chain.layers[0], index
      ensures chain.Valid() && index.Valid() && chain.OwnOrFresh()
      ensures State() == Refiled(old(State()), n, overrides)
      ensures n in chain.layers[0].vars && chain.layers[0].vars[n] == old(chain.layers[0].vars[n])
    {
      hide Chain.Valid, OverrideIndex.Valid, UpdateOverrides, Displaced, Longer;
      chain.HasOwn();
      Displace(n);
      if '_' in n {
        index.Update(n);
      }
    }

    /** The three `del` statements. */
    method ClearOps(n: Name) returns (d: VarDict)
      requires chain.Valid() && index.Valid()
      modifies chain, chain.layers[0], chain.own
      ensures chain.Valid() && index.Valid() && chain.OwnOrFresh() && d in chain.own
      ensures n in chain.layers[0].vars && chain.layers[0].vars[n] == d && d.ops == map[]
      ensures State() == OpsCleared(old(State()), n) && d.flags == At(old(State()).vars, n).flags
    {
      hide Chain.Valid, OverrideIndex.Valid;
      chain.HasOwn();
      d := chain.ClearOps(n);
    }

    /** self.dict[n]["_content"] = value */
    method FillContent(n: Name, d: VarDict, value: string)
      requires chain.Valid() && index.Valid()
      requires n in chain.layers[0].vars && chain.layers[0].vars[n] == d && d.ops == map[]
      modifies chain, d
      ensures chain.Valid() && index.Valid() && chain.own == old(chain.own)
      ensures State() == old(State()).(vars := Put(old(State()).vars, n, Entry(old(d.flags)[CONTENT := value], [], [], [])))
    {
      hide Chain.Valid, OverrideIndex.Valid, Put;
      chain.HasOwn();
      chain.SetCleared(n, d, value);
    }

    /** setVar of any other name, without parsing. */
    method SetContent(n: Name, value: string)
      requires chain.Valid() && index.Valid() && Longer(index.pairs) && ParseKeyword(n, 0).None?
      modifies chain, chain.layers[0], chain.own, index
      ensures chain.Valid() && index.Valid() && chain.OwnOrFresh()
      ensures State() == FlatWriteOne(old(State()), overrides, Write.SetVar(n, value, false))
    {
      hide Chain.Valid, OverrideIndex.Valid, Put, Refiled, Longer, At, FlatWriteOne, ParseKeyword, OpsCleared;
      chain.HasOwn();
      ContentSteps(State(), n, overrides, value);
      var d := ClearOps(n);
      Refile(n);
      FillContent(n, d, value);
    }

    method Assign(n: Name, value: string, parsing: bool)
      requires chain.Valid() && index.Valid() && Longer(index.pairs)
      modifies chain, chain.layers[0], chain.own, index
      ensures chain.Valid() && index.Valid() && chain.OwnOrFresh()
      ensures State() == FlatWriteOne(old(State()), overrides, Write.SetVar(n, value, parsing))
    {
      hide Chain.Valid, OverrideIndex.Valid, FlatWriteOne, UpdateOverrides, Put, Displaced, ParseKeyword, Longer, At;
      chain.HasOwn();
      var kw := ParseKeyword(n, 0);
      if kw.Some? {
        OperationWritten(State(), overrides, n, value, parsing);
        StoreOperation(kw.value.0, kw.value.1, Op(value, kw.value.2));
      } else if parsing {
        ParsedWritten(State(), overrides, n, value);
        StoreFlag(n, CONTENT, value, true);
      } else {
        SetContent(n, value);
      }
    }

    method Apply(w: Write)
      requires Valid()
      modifies this, chain, chain.layers[0], chain.own, index
      ensures Valid() && expandCache == map[] && chain.OwnOrFresh()
      ensures State() == FlatWriteOne(old(State()), overrides, w)
    {
      hide Chain.Valid, OverrideIndex.Valid, CacheSound, FlatWriteOne, Longer;
      chain.HasOwn();
      match w
      case SetVar(n, value, parsing) => SetVar(n, value, parsing);
      case DelVar(n) => DelVar(n);
      case SetVarFlag(n, flag, value) => SetVarFlag(n, flag, value);
      case DelVarFlag(n, flag) => DelVarFlag(n, flag);
    }

    /** Any run of writes does what the run on the flat map does, and writes no dictionary or list that
        existed before, other than the dictionaries of its own layer. */
    method Run(ws: seq<Write>)
      requires Valid()
      modifies this, chain, chain.layers[0], chain.own, index
      ensures Valid() && chain.OwnOrFresh()
      ensures State() == FlatRun(old(State()), overrides, ws)
    {
      hide Chain.Valid, OverrideIndex.Valid, CacheSound, FlatWriteOne, Longer;
      chain.HasOwn();
      for i := 0 to |ws|
        invariant Valid() && chain.OwnOrFresh()
        invariant State() == FlatRun(old(State()), overrides, ws[..i])
      {
        assert ws[..i + 1][..i] == ws[..i];
        Apply(ws[i]);
      }
      assert ws[..|ws|] == ws;
    }

    /** A run of writes on a copy of this store: everything this store reads from, its cache included, is
        as before, although the copy shares its dictionaries and lists. */
    method RunOnCopy(copy: DataSmart, ws: seq<Write>)
      requires Valid() && copy.Valid() && copy != this && copy.chain != chain && copy.index != index
      requires copy.chain.layers[1..] == chain.layers
      modifies copy, copy.chain, copy.chain.layers[0], copy.chain.own, copy.index
      ensures Valid() && View() == old(View()) && expandCache == old(expandCache)
      ensures copy.Valid() && copy.State() == FlatRun(old(copy.State()), copy.overrides, ws)
    {
      hide FlatRun, CacheSound, Longer, Flat;
      OwnNotBelow(copy.chain.layers);
      copy.Run(ws);
    }

    /** The same from the moment of copying. */
    method CopyAndRun(resolved: seq<string>, ws: seq<Write>) returns (copy: DataSmart)
      requires Valid()
      ensures Valid() && View() == old(View()) && expandCache == old(expandCache)
      ensures copy.Valid() && fresh(copy) && copy.chain.layers[1..] == chain.layers
      ensures copy.State() == FlatRun(old(State()), resolved, ws)
    {
      hide CacheSound, FlatRun, Longer, Chain.Valid, OverrideIndex.Valid;
      copy := CreateCopy(resolved);
      RunOnCopy(copy, ws);
    }

    // ---- iteration ----

    /** __iter__: the names it yields from the layers, then those with an override in force. No name is
        yielded twice, and together they are the flat map's names and the conditional ones. */
    method Keys() returns (own: set<Name>, conditional: set<Name>)
      requires chain.Valid() && index.Valid()
      ensures conditional == Conditional(index.pairs, overrides)
      ensures own == chain.vars.Keys - conditional
    {
      hide Conditional, Flat, Contents, Filled, Separate;
      conditional := FindConditional();
      assert chain.layers[0..] == chain.layers;
      own := chain.KeyList(0, {}, conditional, Contents(chain.layers));
      assert chain.vars.Keys - {} - conditional == chain.vars.Keys - conditional;
    }

    method FindConditional() returns (conditional: set<Name>)
      requires index.Valid()
      ensures conditional == Conditional(index.pairs, overrides)
    {
      hide InForce, ActiveNames;
      conditional := {};
      var left := index.table.Keys;
      while left != {}
        invariant left <= index.table.Keys
        invariant conditional == Conditional(index.pairs, overrides) - left
        decreases |left|
      {
        var n :| n in left;
        index.PairsAt(n);
        var active := CollectActive(index.table[n].items);
        ActiveIffInForce(index.pairs[n], overrides);
        if active != [] {
          conditional := conditional + {n};
        }
        left := left - {n};
      }
    }

    // ---- reads, through the cache ----

    /** getVar with its default arguments: the cached value, or a fresh one that is then cached. A fresh
        value, and a cached one under an unambiguous name, is what evaluation without a cache gives, and it
        is returned whenever that gives one. */
    method GetVar(n: Name, fuel: nat) returns (r: Outcome<Option<string>>)
      requires Ready()
      modifies this`expandCache
      ensures !Ambiguous(n) || n in old(expandCache) ==> Ready()
      ensures !Ambiguous(n) || n !in old(expandCache) ==> GetsWithin(View(), fuel, n, r)
      ensures n in old(expandCache) ==> r == Done(old(expandCache)[n]) && expandCache == old(expandCache)
      ensures Settled()
      decreases fuel, 3
    {
      hide Chain.Valid, OverrideIndex.Valid, Unambiguous, Longer, GetsWithin, Ambiguous;
      if n in expandCache {
        r := Done(expandCache[n]);
        if !Ambiguous(n) {
          CachedContent(View(), expandCache, n, fuel);
        }
        return;
      }
      var p := Evaluate(n, fuel, true);
      r := Value(p);
      GetOutcome(View(), fuel, n, p);
    }

    /** getVarFlag for any other flag. */
    method GetFlag(n: Name, flag: Flag, fuel: nat) returns (r: Outcome<Option<string>>)
      requires Ready() && flag != CONTENT
      modifies this`expandCache
      ensures Proper(n, flag) || CacheKey(n, flag) in old(expandCache) ==> Ready()
      ensures Proper(n, flag) || CacheKey(n, flag) !in old(expandCache) ==> ReadsWithin(View(), fuel, n, flag, r)
      ensures flag != "" && CacheKey(n, flag) in old(expandCache) ==>
                r == Done(old(expandCache)[CacheKey(n, flag)]) && expandCache == old(expandCache)
      ensures flag != "" && r.Done? ==> CacheKey(n, flag) in expandCache && expandCache[CacheKey(n, flag)] == r.value
      ensures Settled()
    {
      hide Chain.Valid, OverrideIndex.Valid, Unambiguous, Longer, ReadsWithin, Proper, CacheKey, CacheSound;
      var key := CacheKey(n, flag);
      if flag == "" {
        r := Done(None);
        FlagAbsent(View(), fuel, n, flag);
        return;
      }
      if key in expandCache {
        r := Done(expandCache[key]);
        if Proper(n, flag) {
          CachedRead(View(), expandCache, n, flag, fuel);
        }
        return;
      }
      r := EvaluateFlag(n, flag, fuel);
      if r.Done? {
        if Proper(n, flag) {
          ReadWithinReads(View(), fuel, n, flag, r);
          CacheAdd(View(), expandCache, n, flag, r.value);
        }
        expandCache := expandCache[key := r.value];
      }
    }

    method EvaluateFlag(n: Name, flag: Flag, fuel: nat) returns (r: Outcome<Option<string>>)
      requires Ready() && flag != CONTENT && flag != ""
      modifies this`expandCache
      ensures Ready() && ReadsWithin(View(), fuel, n, flag, r)
    {
      hide Chain.Valid, OverrideIndex.Valid, Unambiguous, Longer, ReadsWithin, CacheSound, ExpandsWithin, CacheKey;
      var e := chain.Visible(n);
      if flag !in e.flags {
        r := Done(None);
        FlagAbsent(View(), fuel, n, flag);
      } else {
        var x := ExpandWithRefs(e.flags[flag], CacheKey(n, flag), fuel);
        r := Expanded(x);
        FlagOutcome(View(), fuel, n, flag, x);
      }
    }

    /** The rest of getVarFlag for the content, once the cache has been asked. */
    method Evaluate(n: Name, fuel: nat, expand: bool) returns (r: Outcome<Parsed>)
      requires Ready()
      modifies this`expandCache
      ensures Settled() && EvaluatesWithin(View(), fuel, n, expand, r)
      ensures !Ambiguous(n) ==> Ready()
      decreases fuel, 2
    {
      hide Chain.Valid, OverrideIndex.Valid, Unambiguous, Longer, Gets, CacheSound, Evaluates, Finishes, Select, Ambiguous;
      r := EvaluateAfresh(n, fuel, expand);
      if r.Done? {
        EvaluatedForCache(View(), n, expand, r.value);
        if !Ambiguous(n) {
          CacheContent(View(), expandCache, n, r.value.expanded);
        }
        expandCache := expandCache[n := r.value.expanded];
      }
    }

    /** The variable that takes over, if one of the index does. */
    method SelectOverride(n: Name) returns (matched: Option<Name>)
      requires index.Valid() && Unambiguous(index.pairs)
      ensures matched == if n in index.pairs then Select(index.pairs[n], overrides) else None
      ensures matched.Some? ==> !Ambiguous(matched.value)
    {
      hide Select, Ambiguous, OverrideIndex.Valid, Unambiguous;
      matched := None;
      index.PairsAt(n);
      if n in index.table {
        matched := SelectVariable(index.table[n].items, overrides);
        if matched.Some? {
          SelectedUnambiguous(index.pairs, n, overrides);
        }
      }
    }

    method EvaluateAfresh(n: Name, fuel: nat, expand: bool) returns (r: Outcome<Parsed>)
      requires Ready()
      modifies this`expandCache
      ensures Ready() && EvaluatesWithin(View(), fuel, n, expand, r)
      decreases fuel, 1, 2
    {
      hide Chain.Valid, OverrideIndex.Valid, Unambiguous, Longer, CacheSound, Evaluates, Finishes, Select, Finish, Ambiguous;
      var e := chain.Visible(n);
      var matched := SelectOverride(n);
      if matched.None? || matched.value == "" {
        r := FinishValue(n, e, fuel, expand, Parsed(Own(e), None, []));
        EvalPlain(View(), n, expand, r);
      } else {
        if fuel == 0 {
          GivingUp(View(), "", "");
          return Unfinished;
        }
        var p := Evaluate(matched.value, fuel - 1, false);
        if p == Unfinished {
          GivingUp(View(), "", "");
          return Unfinished;
        }
        if p == Failed {
          r := Failed;
          EvalSelectedFails(View(), n, expand);
        } else {
          r := FinishValue(n, e, fuel, expand, From(e, p.value));
          EvalSelected(View(), n, expand, p.value, r);
        }
      }
      if r != Unfinished {
        EvalUnique(View(), n, expand, r, fuel);
      }
    }

    /** The operations, the expansion and the removals. */
    method FinishValue(n: Name, e: Entry, fuel: nat, expand: bool, from: Parsed) returns (r: Outcome<Parsed>)
      requires Ready() && e == At(View().vars, n)
      modifies this`expandCache
      ensures Ready() && FinishesWithin(View(), fuel, n, expand, from, r)
      decreases fuel, 1, 1
    {
      hide Chain.Valid, OverrideIndex.Valid, Unambiguous, Longer, CacheSound, ExpandAll, ExpandEach, Expands, ExpandsEach, Finishes, Surrounded, AddNew, Texts;
      var raw := Surround(from.raw, e);
      if raw.None? {
        r := Done(Parsed(None, None, []));
        FinishNone(View(), n, expand, from);
        return;
      }
      var x := ExpandWithRefs(raw.value, n, fuel);
      if x == Unfinished {
        GivingUp(View(), "", "");
        return Unfinished;
      }
      if x == Failed {
        r := Failed;
        FinishFails(View(), n, expand, from);
      } else if (if expand then x.value else raw.value) == "" {
        r := Done(Parsed(raw, Some(x.value), []));
        FinishWithout(View(), n, expand, from, x.value);
      } else {
        var removes := AddNew(from.removed, Texts(e.removes, overrides));
        var words := ExpandRemoves(removes, fuel);
        if words == Unfinished {
          GivingUp(View(), "", "");
          return Unfinished;
        }
        if words == Failed {
          r := Failed;
          FinishRemovalFails(View(), n, expand, from, x.value);
        } else {
          FinishWith(View(), n, expand, from, x.value, words.value);
          var kept := x.value;
          if removes != [] {
            kept := RemoveWords(x.value, words.value);
          }
          r := Done(Parsed(raw, Some(kept), Used(removes, words.value, Tokens(x.value))));
        }
      }
      FinishUnique(View(), n, expand, from, r, fuel);
    }

    /** The two loops over the operations put around a value. */
    method Surround(value: Option<string>, e: Entry) returns (r: Option<string>)
      ensures r == Surrounded(value, e, overrides)
    {
      hide Applies;
      r := value;
      if e.appends != [] {
        var v := OrEmpty(r);
        for i := 0 to |e.appends|
          invariant AppendAll(v, Texts(e.appends[i..], overrides)) == AppendAll(OrEmpty(value), Texts(e.appends, overrides))
        {
          AppendNext(v, e.appends[i..], overrides);
          assert e.appends[i..][1..] == e.appends[i + 1..];
          if Applies(e.appends[i], overrides) {
            v := v + e.appends[i].text;
          }
        }
        r := Some(v);
      }
      if e.prepends != [] {
        var v := OrEmpty(r);
        for i := 0 to |e.prepends|
          invariant PrependAll(v, Texts(e.prepends[i..], overrides)) == PrependAll(OrEmpty(r), Texts(e.prepends, overrides))
        {
          AppendNext(v, e.prepends[i..], overrides);
          assert e.prepends[i..][1..] == e.prepends[i + 1..];
          if Applies(e.prepends[i], overrides) {
            v := e.prepends[i].text + v;
          }
        }
        r := Some(v);
      }
    }

    /** The loop over the tokens. */
    method RemoveWords(x: string, words: seq<seq<string>>) returns (kept: string)
      ensures kept == Kept(Tokens(x), words)
    {
      hide Dropped, Tokens;
      var tokens := Tokens(x);
      kept := "";
      for i := 0 to |tokens|
        invariant kept + Kept(tokens[i..], words) == Kept(tokens, words)
      {
        assert tokens[i..][1..] == tokens[i + 1..];
        if !Dropped(tokens[i], words) {
          assert kept + (tokens[i] + Kept(tokens[i + 1..], words)) == (kept + tokens[i]) + Kept(tokens[i + 1..], words);
          kept := kept + tokens[i];
        } else {
          assert "" + Kept(tokens[i + 1..], words) == Kept(tokens[i + 1..], words);
        }
      }
    }

    /** The expanded words of each removal. */
    method ExpandRemoves(removes: seq<string>, fuel: nat) returns (r: Outcome<seq<seq<string>>>)
      requires Ready()
      modifies this`expandCache
      ensures Ready() && ExpandsEachWithin(View(), fuel, removes, r)
      decreases fuel, 1, 0, |removes|
    {
      hide Chain.Valid, OverrideIndex.Valid, Unambiguous, Longer, CacheSound, ExpandAll, Expands, ExpandsEach, Words;
      if removes == [] {
        r := Done([]);
        assert ExpandsEach(View(), removes, r) by {
          NothingToExpand(View());
        }
        return;
      }
      var x := ExpandWithRefs(removes[0], "", fuel);
      if x == Unfinished {
        GivingUp(View(), "", "");
        return Unfinished;
      }
      if x == Failed {
        r := Failed;
        ExpandEachFails(View(), removes);
      } else {
        var rest := ExpandRemoves(removes[1..], fuel);
        ExpandEachNext(View(), removes, x.value, rest);
        r := if rest.Done? then Done([Words(x.value)] + rest.value) else rest;
      }
      if r != Unfinished {
        ExpandEachUnique(View(), removes, r, fuel);
      }
    }

    /** expandWithRefs: the `while` loop. */
    method ExpandWithRefs(s: string, self: Name, fuel: nat) returns (r: Outcome<string>)
      requires Ready()
      modifies this`expandCache
      ensures Ready() && ExpandsWithin(View(), fuel, s, self, r)
      decreases fuel, 1, 0, 0
    {
      hide Chain.Valid, OverrideIndex.Valid, Unambiguous, Longer, CacheSound, Substitute, Expands, HasOpening;
      ghost var st := View();
      var cur: string, left: nat := s, fuel;
      while HasOpening(cur)
        invariant Ready() && View() == st && left <= fuel
        invariant forall q: Outcome<string> :: Expands(st, cur, self, q) ==> Expands(st, s, self, q)
        invariant ExpandAll(st, fuel, s, self) != Unfinished ==> ExpandAll(st, left, cur, self) == ExpandAll(st, fuel, s, self)
        decreases left
      {
        var t := SubstituteRefs(cur, self, left);
        if t == Failed {
          ExpandFails(st, cur, self);
          ExpandUnique(st, s, self, Failed, fuel);
          return Failed;
        }
        if t.Done? && t.value == cur {
          break;
        }
        if t == Unfinished || left == 0 {
          GivingUp(st, s, self);
          return Unfinished;
        }
        forall q: Outcome<string> | Expands(st, t.value, self, q) ensures Expands(st, s, self, q) {
          ExpandRound(st, cur, self, t.value, q);
        }
        cur, left := t.value, left - 1;
      }
      ExpandStops(st, cur, self);
      ExpandUnique(st, s, self, Done(cur), fuel);
      r := Done(cur);
    }

    /** One pass of the substitution, calling back for each `${key}`. */
    method SubstituteRefs(s: string, self: Name, fuel: nat) returns (r: Outcome<string>)
      requires Ready()
      modifies this`expandCache
      ensures Ready() && SubstitutesWithin(View(), fuel, s, self, r)
      decreases fuel, 0, |s|
    {
      hide Chain.Valid, OverrideIndex.Valid, Unambiguous, Longer, CacheSound, Substitutes, Gets, RefLength;
      if s == "" {
        r := Done("");
        NothingToSubstitute(View(), self);
        return;
      }
      var n := RefLength(s);
      if n == 0 {
        var rest := SubstituteRefs(s[1..], self, fuel);
        SubstituteChar(View(), s, self, rest);
        r := Before([s[0]], rest);
      } else if s[2..n - 1] == self {
        SubstituteSelf(View(), s, self);
        r := Failed;
      } else {
        if fuel == 0 {
          GivingUp(View(), s, self);
          return Unfinished;
        }
        KeyUnambiguous(s);
        var v := GetVar(s[2..n - 1], fuel - 1);
        if v == Unfinished {
          GivingUp(View(), s, self);
          return Unfinished;
        }
        if v == Failed {
          SubstituteKeyFails(View(), s, self);
          r := Failed;
        } else {
          var rest := SubstituteRefs(s[n..], self, fuel);
          SubstituteKey(View(), s, self, v.value, rest);
          r := Before(if v.value.Some? then v.value.value else s[..n], rest);
        }
      }
      if r != Unfinished {
        SubstituteUnique(View(), s, self, r, fuel);
      }
    }

    /** Any run of reads and writes: every read answers what evaluation without a cache gives on the flat
        map that the writes before it have made. */
    method Script(accesses: seq<Access>, fuel: nat) returns (answers: seq<Outcome<Option<string>>>)
      requires Ready() && forall a :: a in accesses ==> Mixable(a)
      modifies this, chain, chain.layers[0], chain.own, index
      ensures Ready() && chain.OwnOrFresh() && View() == StoreAfter(old(State()), overrides, accesses)
      ensures |answers| == |accesses|
      ensures forall i :: 0 <= i < |accesses| ==>
                Answers(StoreAfter(old(State()), overrides, accesses[..i]), fuel, accesses[i], answers[i])
    {
      hide Chain.Valid, OverrideIndex.Valid, CacheSound, Longer, Unambiguous, FlatWriteOne, Answers, Mixable, StoreAfter;
      chain.HasOwn();
      ghost var s := State();
      answers := [];
      NothingWritten(s, overrides);
      for i := 0 to |accesses|
        invariant Ready() && chain.OwnOrFresh() && View() == StoreAfter(s, overrides, accesses[..i])
        invariant |answers| == i
        invariant forall k :: 0 <= k < i ==> Answers(StoreAfter(s, overrides, accesses[..k]), fuel, accesses[k], answers[k])
      {
        StoreNext(s, overrides, accesses[..i], accesses[i]);
        assert accesses[..i] + [accesses[i]] == accesses[..i + 1];
        var r := Perform(accesses[i], fuel);
        answers := answers + [r];
      }
      assert accesses[..|accesses|] == accesses;
    }

    /** One access; a write answers nothing. */
    method Perform(a: Access, fuel: nat) returns (r: Outcome<Option<string>>)
      requires Ready() && Mixable(a)
      modifies this, chain, chain.layers[0], chain.own, index
      ensures Ready() && chain.OwnOrFresh()
      ensures State() == if a.Set? then FlatWriteOne(old(State()), overrides, a.write) else old(State())
      ensures Answers(old(View()), fuel, a, r)
    {
      hide Chain.Valid, OverrideIndex.Valid, CacheSound, Longer, Unambiguous, FlatWriteOne, ReadsWithin, GetsWithin;
      chain.HasOwn();
      match a
      case Set(w) =>
        FlatWriteUnambiguous(State(), overrides, w);
        Apply(w);
        r := Done(None);
      case Read(n, flag) =>
        if flag == CONTENT {
          r := GetVar(n, fuel);
          ContentReads(View(), fuel, n, r);
        } else {
          r := GetFlag(n, flag, fuel);
        }
    }

    /** After a flag has been read, the read of the content that shares its key answers with the flag,
        whatever that content is. */
    method ReadFlagThenContent(n: Name, flag: Flag, fuel: nat)
      returns (first: Outcome<Option<string>>, second: Outcome<Option<string>>)
      requires Ready() && Proper(n, flag) && flag != "" && flag != CONTENT
      modifies this`expandCache
      ensures Ready() && ReadsWithin(View(), fuel, n, flag, first)
      ensures first.Done? ==> second == first
    {
      hide Ready, Settled, ReadsWithin, GetsWithin, Proper, CacheKey, Ambiguous;
      first := GetFlag(n, flag, fuel);
      second := first;
      if first.Done? {
        second := GetVar(CacheKey(n, flag), fuel);
      }
    }
  }

  /** The answer is wrong when the content is another: a run on a new store. */
  method WrongAnswer() returns (store: DataSmart, flag: Outcome<Option<string>>, content: Outcome<Option<string>>)
    ensures Get(store.View(), 0, "A[b]") == Done(Some("1"))
    ensures flag == content == Done(Some("2"))
  {
    hide Unambiguous, FlatWriteOne, ReadAt, GetsWithin, CacheSound, Ambiguous, Chain.Valid, OverrideIndex.Valid, Longer;
    CollidingStore();
    store := new DataSmart([]);
    store.SetVarFlag("A", "b", "2");
    store.SetVar("A[b]", "1", false);
    flag, content := store.ReadFlagThenContent("A", "b", 0);
  }
}
