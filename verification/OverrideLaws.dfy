/** Conditional variables and default values: when they count, and what a plain setting does to them. */
module OverrideLaws {
  import opened DataStore
  import opened Options
  import opened Sequences
  import opened Strings
  import opened OverrideChoice
  import opened Expansion
  import opened ExpansionLaws
  import opened ReferenceLaws
  import opened OperationLaws
  import opened StoreWrites

  // ---- what is in force ----

  /** o is a name in OVERRIDES, or several of them with '_' between. */
  ghost predicate Forced(o: string, overrides: seq<string>) {
    o in overrides || exists parts :: Combines(parts, o, overrides)
  }

  ghost predicate Combines(parts: seq<string>, o: string, overrides: seq<string>) {
    |parts| > 1 && o == Join(parts, '_') && forall p :: p in parts ==> '_' !in p && p in overrides
  }

  lemma ForcedMeans(o: string, overrides: seq<string>)
    ensures InForce(o, overrides) <==> Forced(o, overrides)
  {
    if '_' in o && InForce(o, overrides) {
      var parts := Split(o, '_');
      JoinSplit(o, '_');
      PartsClean(o, '_');
      assert parts[0] in parts;
      assert o in overrides || Combines(parts, o, overrides);
    }
    forall parts | Combines(parts, o, overrides) ensures InForce(o, overrides) {
      SplitJoin(parts, '_');
      SplitWithout(parts, o);
    }
  }

  lemma SplitWithout(parts: seq<string>, o: string)
    requires |parts| > 1 && Split(o, '_') == parts
    ensures '_' in o
  {
    if '_' !in o {
      SplitWhole(o, '_');
    }
  }

  // ---- a plain setting removes what is in force ----

  /** A variable that n has a conditional variable called m in force. */
  ghost predicate Displaces(s: Flattened, n: Name, overrides: seq<string>, m: Name) {
    exists o :: Lists(s.index, n, (m, o)) && Forced(o, overrides)
  }

  lemma {:induction false} ActiveMeans(pairs: seq<(Name, string)>, overrides: seq<string>, m: Name)
    ensures m in ActiveNames(pairs, overrides) <==> exists o :: (m, o) in pairs && Forced(o, overrides)
  {
    hide InForce, Forced;
    if pairs != [] {
      ActiveMeans(pairs[1..], overrides, m);
      ForcedMeans(pairs[0].1, overrides);
      assert pairs == [pairs[0]] + pairs[1..];
      assert (m, pairs[0].1) == pairs[0] || m != pairs[0].0;
    }
  }

  /** setVar(n, value) deletes the conditional variables of n that are in force, and they have no value
      afterwards; every other variable is as it was. */
  lemma SettingDisplaces(s: Flattened, overrides: seq<string>, n: Name, value: string, m: Name, fuel: nat)
    requires Longer(s.index) && NoneBefore(n, |n| + 1) && m != n
    ensures var s' := FlatWriteOne(s, overrides, SetVar(n, value, false));
      && At(s'.vars, m) == (if Displaces(s, n, overrides, m) then EMPTY else At(s.vars, m))
      && (Displaces(s, n, overrides, m) ==> Get(StoreOf(s', overrides), fuel, m) == Done(None))
  {
    hide FlatWriteOne, NoneBefore, ParseKeyword, Forced, Longer, Displaces, Get, UpdateOverrides, ActiveNames;
    var s' := FlatWriteOne(s, overrides, SetVar(n, value, false));
    PlainName(n);
    ContentWritten(s, overrides, n, value);
    DisplacedActive(s, n, overrides, m);
    if n in s.index {
      FlatDelAllVars(s, ActiveNames(s.index[n], overrides));
    }
    if Displaces(s, n, overrides, m) {
      DisplacedUnlisted(s, overrides, n, value, m);
      NoValue(StoreOf(s', overrides), fuel, m);
    }
  }

  lemma DisplacedActive(s: Flattened, n: Name, overrides: seq<string>, m: Name)
    ensures Displaces(s, n, overrides, m) <==> n in s.index && m in ActiveNames(s.index[n], overrides)
  {
    hide Forced;
    if n in s.index {
      ActiveMeans(s.index[n], overrides, m);
      assert forall o :: Lists(s.index, n, (m, o)) <==> (m, o) in s.index[n];
    }
  }

  lemma DisplacedUnlisted(s: Flattened, overrides: seq<string>, n: Name, value: string, m: Name)
    requires Longer(s.index) && ParseKeyword(n, 0).None?
    requires n in s.index && m in ActiveNames(s.index[n], overrides)
    ensures m !in FlatWriteOne(s, overrides, SetVar(n, value, false)).index
  {
    hide FlatWriteOne, ParseKeyword, UpdateOverrides;
    var names := ActiveNames(s.index[n], overrides);
    ContentWritten(s, overrides, n, value);
    FlatDelAllIndex(s, names);
    var index := Displaced(s, n, overrides).index - {n};
    assert m !in index && |m| > |n|;
    UpdateStarts(index, n);
    if LastUnderscore(n) >= 0 {
      AddSplitsKeys(index, n, LastUnderscore(n));
    }
  }

  lemma NoValue(st: Store, fuel: nat, m: Name)
    requires m !in st.index && At(st.vars, m) == EMPTY
    ensures Get(st, fuel, m) == Done(None)
  {
    hide ExpandAll, ExpandEach;
    assert Own(EMPTY) == None && Surrounded(None, EMPTY, st.overrides) == None && Matched(st, m).None?;
    assert Finish(st, fuel, m, true, Parsed(None, None, [])) == Done(Parsed(None, None, []));
  }

  // ---- which conditional variables count ----

  /** An override as it is filed: a lower-case letter or a digit first, and no '_'. */
  ghost predicate OverrideName(o: string) {
    o != "" && ('a' <= o[0] <= 'z' || '0' <= o[0] <= '9') && '_' !in o
  }

  /** The value of a conditional variable whose override comes last in OVERRIDES is that of the variable. */
  lemma ConditionalValue(s: Flattened, overrides: seq<string>, base: Name, o: string, value: string, fuel: nat)
    requires Longer(s.index) && Spelled(s.index) && NoDuplicates(overrides) && overrides != [] && o == overrides[|overrides| - 1]
    requires OverrideName(o) && NoneBefore(base + "_" + o, |base + "_" + o| + 1)
    requires forall p :: Lists(s.index, base, p) && Forced(p.1, overrides) ==> '_' !in p.1
    requires At(s.vars, base).appends == At(s.vars, base).prepends == At(s.vars, base).removes == []
    requires NoReference(value) && fuel > 0
    ensures Get(StoreOf(FlatWriteOne(s, overrides, SetVar(base + "_" + o, value, false)), overrides), fuel, base) == Done(Some(value))
  {
    hide FlatWriteOne, NoneBefore, ParseKeyword, Eval, HasOpening, NoReference, Spelled, Longer, InForce, Forced;
    PlainName(base + "_" + o);
    OpeningMeans(value);
    forall p | Lists(s.index, base, p) && InForce(p.1, overrides) ensures '_' !in p.1 {
      ForcedMeans(p.1, overrides);
    }
    OverrideThenGet(s, overrides, base, o, value, fuel, true);
  }

  lemma {:induction false} ActivateLast(active: Active, pairs: seq<(Name, string)>, last: (Name, string), overrides: seq<string>)
    requires !InForce(last.1, overrides)
    ensures Activate(active, pairs + [last], overrides) == Activate(active, pairs, overrides)
    decreases |pairs|
  {
    hide InForce;
    if pairs == [] {
      assert pairs + [last] == [last] && [last][1..] == [];
    } else {
      assert (pairs + [last])[1..] == pairs[1..] + [last] && (pairs + [last])[0] == pairs[0];
      var (r, o) := pairs[0];
      ActivateLast(if InForce(o, overrides) then SetKey(active, o, r) else active, pairs[1..], last, overrides);
    }
  }

  /** What filing base_o does to the pairs of base. */
  lemma FiledForBase(index: Index, base: Name, o: string)
    requires '_' !in o
    ensures var index', n := UpdateOverrides(index, base + "_" + o), base + "_" + o;
      if OverrideName(o) then
        var pairs := if base in index then index[base] else [];
        base in index' && (index'[base] == pairs || index'[base] == pairs + [(n, o)])
      else index' == index
  {
    hide AddSplits, LastUnderscore;
    var n, k := base + "_" + o, |base|;
    assert n[k] == '_' && n[k + 1..] == o && n[..k] == base;
    LastUnderscoreAt(n, k);
    UpdateStarts(index, n);
    if OverrideName(o) {
      SplitStep(index, n, k);
      var index', j := AddPair(index, base, n, o), LastUnderscore(base);
      if j > 0 {
        AddSplitsElsewhere(index', n, j, base);
      }
    } else {
      SplitStop(index, n, k);
    }
  }

  lemma NotSelected(s: Flattened, overrides: seq<string>, base: Name, o: string, vars: Vars)
    requires '_' !in o && (o !in overrides || !OverrideName(o)) && base + "_" + o !in s.index
    requires Matched(StoreOf(s, overrides), base).None?
    ensures Matched(StoreOf(Flattened(vars, UpdateOverrides(s.index, base + "_" + o)), overrides), base).None?
  {
    hide Resolve, InForce, UpdateOverrides, OverrideName, Activate;
    FiledForBase(s.index, base, o);
    if OverrideName(o) {
      NotInForce(o, overrides);
      var pairs := if base in s.index then s.index[base] else [];
      ActivateLast([], pairs, (base + "_" + o, o), overrides);
      NothingSelected(overrides);
    }
  }

  lemma NotInForce(o: string, overrides: seq<string>)
    requires '_' !in o && o !in overrides
    ensures !InForce(o, overrides)
  {
  }

  lemma NothingSelected(overrides: seq<string>)
    ensures Select([], overrides).None?
  {
    EmptyPass(Progress([], None, false), overrides);
  }

  lemma {:induction false} EmptyPass(p: Progress, overrides: seq<string>)
    requires p.active == []
    ensures Pass(p, overrides) == p
    decreases |overrides|
  {
    if overrides != [] {
      assert Keys(p.active) == [];
      EmptyPass(p, overrides[1..]);
    }
  }

  /** A conditional variable whose override is not in OVERRIDES, or does not start with a lower-case
      letter or digit, does not count: the variable keeps its value. */
  lemma ConditionalIgnored(s: Flattened, overrides: seq<string>, base: Name, o: string, value: string, p: Parsed, fuel: nat)
    requires Longer(s.index) && '_' !in o && NoneBefore(base + "_" + o, |base + "_" + o| + 1)
    requires (o !in overrides || !OverrideName(o)) && base + "_" + o !in s.index
    requires Had(s, overrides, base, p)
    ensures Get(StoreOf(FlatWriteOne(s, overrides, SetVar(base + "_" + o, value, false)), overrides), fuel, base) == Done(p.expanded)
  {
    hide FlatWriteOne, NoneBefore, ParseKeyword, Get, Eval, Matched, Own, Surrounded, OverrideName, UpdateOverrides, Had, Longer;
    var n := base + "_" + o;
    var s' := FlatWriteOne(s, overrides, SetVar(n, value, false));
    PlainName(n);
    ContentWritten(s, overrides, n, value);
    ContentKeeps(s, overrides, n, value, base);
    assert s.index - {n} == s.index;
    HadUnconditional(s, overrides, base, p);
    NotSelected(s, overrides, base, o, s'.vars);
    HadRaw(s, overrides, base, p);
    HadPlain(s, overrides, base, p);
    PlainValue(StoreOf(s', overrides), fuel, base);
  }

  /** delVar takes a conditional variable out of the list of its base exactly when its override has a
      lower-case letter and no capital. */
  lemma DeletionTakesOut(index: Index, base: Name, o: string)
    requires Unrepeated(index) && '_' !in o && Lists(index, base, (base + "_" + o, o))
    ensures var n := base + "_" + o;
      Lists(ForgetOverrides(index, n), base, (n, o)) <==>
      (forall c :: c in o ==> c < 'a' || 'z' < c) || exists c :: c in o && 'A' <= c <= 'Z'
  {
    hide ForgetOverrides;
    var n, k := base + "_" + o, |base|;
    assert n[k] == '_' && n[k + 1..] == o && n[..k] == base;
    LastUnderscoreAt(n, k);
    ForgetOverridesLists(index, n);
    assert (base, o) in TakenSplits(n) <==> IsLower(o);
    assert base != n;
  }

  /** A selected variable without a value of its own leaves the variable with its own content. */
  lemma FallsBack(st: Store, fuel: nat, n: Name, m: Name, p: Parsed, text: string)
    requires fuel > 0 && Matched(st, n) == Some(m) && Eval(st, fuel - 1, m, false) == Done(p)
    requires p.raw.None? && p.removed == [] && NoReference(text)
    requires n in st.vars && st.vars[n] == Entry(map["_content" := text], [], [], [])
    ensures Get(st, fuel, n) == Done(Some(text))
  {
    hide Matched, ExpandAll, HasOpening, NoReference;
    OpeningMeans(text);
    NoOpening(st, fuel, text, n);
    NothingRemoved(st, fuel, text);
    assert Finish(st, fuel, n, true, Parsed(Some(text), None, [])) == Done(Both(Some(text)));
  }

  // ---- default values ----

  lemma OwnText(e: Entry, text: string, overrides: seq<string>)
    requires e.appends == e.prepends == [] && Own(e) == Some(text)
    ensures Surrounded(Own(e), e, overrides) == Some(text)
  {
  }

  /** A default value is the value as long as there is no content. */
  lemma DefaultThenGet(s: Flattened, overrides: seq<string>, n: Name, value: string, fuel: nat)
    requires var st := StoreOf(s, overrides); var e := At(st.vars, n);
      Matched(st, n).None? && e.appends == e.prepends == e.removes == []
      && ("_content" in e.flags ==> NoReference(e.flags["_content"]))
    requires NoReference(value)
    ensures var e := At(s.vars, n);
      Get(StoreOf(FlatWriteOne(s, overrides, SetVarFlag(n, "_defaultval", value)), overrides), fuel, n) ==
      Done(Some(if "_content" in e.flags then e.flags["_content"] else value))
  {
    hide Select, NoReference, Get, UpdateOverrides, Eval;
    var s' := FlatWriteOne(s, overrides, SetVarFlag(n, "_defaultval", value));
    SameSelection(s, overrides, s'.vars, n);
    assert "_defaultval"[1] != "_content"[1];
    OwnText(At(s'.vars, n), if "_content" in At(s.vars, n).flags then At(s.vars, n).flags["_content"] else value, overrides);
    PlainValue(StoreOf(s', overrides), fuel, n);
  }
}
