/** The layered variable store: copy-on-write layers, the override index and the operations that write. */
module DataStore {
  import opened Options
  import opened Sequences
  import opened Strings

  type Name = string
  type Flag = string

  const CONTENT: Flag := "_content"
  const DEFAULTVAL: Flag := "_defaultval"

  datatype Keyword = Append | Prepend | Remove

  /** One `VAR_append`-like operation: its text and the override it is conditional on. */
  datatype Op = Op(text: string, override: Option<string>)

  /** What a layer holds for one variable. The three operation lists are absent when empty. */
  datatype Entry = Entry(flags: map<Flag, string>, appends: seq<Op>, prepends: seq<Op>, removes: seq<Op>) {
    function Ops(k: Keyword): seq<Op> {
      match k
      case Append => appends
      case Prepend => prepends
      case Remove => removes
    }

    function WithOps(k: Keyword, ops: seq<Op>): Entry {
      match k
      case Append => this.(appends := ops)
      case Prepend => this.(prepends := ops)
      case Remove => this.(removes := ops)
    }

    /** Without one flag; the operation lists are flags too. */
    function Without(flag: Flag): Entry {
      if flag == KeywordText(Append) then this.(appends := [])
      else if flag == KeywordText(Prepend) then this.(prepends := [])
      else if flag == KeywordText(Remove) then this.(removes := [])
      else this.(flags := flags - {flag})
    }
  }

  const EMPTY := Entry(map[], [], [], [])

  type Vars = map<Name, Entry>

  /** For each base name the [variable, override] pairs that spell it with an override appended. */
  type Index = map<Name, seq<(Name, string)>>

  // ---- lookup through the layers, and the flat map it amounts to ----

  /** The nearest layer that has the name. */
  ghost function Find(layers: seq<Vars>, n: Name): Option<Entry> {
    if layers == [] then None
    else if n in layers[0] then Some(layers[0][n])
    else Find(layers[1..], n)
  }

  ghost function FindOr(layers: seq<Vars>, n: Name): Entry {
    match Find(layers, n)
    case None => EMPTY
    case Some(e) => e
  }

  /** One map: the nearest layer wins, an empty entry hides what is below. */
  ghost function Flat(layers: seq<Vars>): Vars {
    if layers == [] then map[]
    else
      (map n | n in layers[0] && layers[0][n] != EMPTY :: layers[0][n])
      + (map n | n in Flat(layers[1..]) && n !in layers[0] :: Flat(layers[1..])[n])
  }

  lemma {:induction false} FlatIsFind(layers: seq<Vars>, n: Name)
    ensures n in Flat(layers) <==> FindOr(layers, n) != EMPTY
    ensures n in Flat(layers) ==> Flat(layers)[n] == FindOr(layers, n)
  {
    if layers != [] {
      FlatIsFind(layers[1..], n);
    }
  }

  function At(vars: Vars, n: Name): Entry {
    if n in vars then vars[n] else EMPTY
  }

  /** The flat map with the entry of one name replaced; an empty entry means the name is gone. */
  ghost function Put(vars: Vars, n: Name, e: Entry): Vars {
    if e == EMPTY then vars - {n} else vars[n := e]
  }

  /** Writing the nearest layer is writing the flat map. */
  lemma FlatWrite(layers: seq<Vars>, n: Name, e: Entry)
    requires layers != []
    ensures Flat(layers[0 := layers[0][n := e]]) == Put(Flat(layers), n, e)
  {
    var layers' := layers[0 := layers[0][n := e]];
    assert layers'[1..] == layers[1..];
    forall m ensures m in Flat(layers') <==> m in Put(Flat(layers), n, e) {
      FlatIsFind(layers, m);
      FlatIsFind(layers', m);
    }
    forall m | m in Flat(layers') ensures Flat(layers')[m] == Put(Flat(layers), n, e)[m] {
      FlatIsFind(layers, m);
      FlatIsFind(layers', m);
    }
    assert Flat(layers').Keys == Put(Flat(layers), n, e).Keys;
  }

  // ---- names ----

  /** Position of the last '_', or -1. */
  function LastUnderscore(s: string): (i: int)
    ensures -1 <= i < |s|
    ensures i >= 0 ==> s[i] == '_' && '_' !in s[i + 1..]
    ensures i < 0 ==> '_' !in s
  {
    if s == "" then -1
    else if s[|s| - 1] == '_' then |s| - 1
    else
      var i := LastUnderscore(s[..|s| - 1]);
      assert s == s[..|s| - 1] + [s[|s| - 1]];
      assert i >= 0 ==> s[i + 1..] == s[..|s| - 1][i + 1..] + [s[|s| - 1]];
      i
  }

  predicate IsLowerOrDigit(c: char) {
    'a' <= c <= 'z' || '0' <= c <= '9'
  }

  /** re.match of `[a-z0-9]+`: it looks at the start only. */
  predicate LooksLikeOverride(s: string) {
    s != "" && IsLowerOrDigit(s[0])
  }

  /** str.islower, on ASCII. */
  predicate IsLower(s: string) {
    (exists c :: c in s && 'a' <= c <= 'z') && forall c :: c in s ==> !('A' <= c <= 'Z')
  }

  // ---- the override index ----

  /** Adds [var, override] under base unless it is there. */
  function AddPair(index: Index, base: Name, name: Name, override: string): Index {
    var pairs := if base in index then index[base] else [];
    index[base := if (name, override) in pairs then pairs else pairs + [(name, override)]]
  }

  function RemovePair(index: Index, base: Name, name: Name, override: string): Index {
    if base in index then index[base := RemoveFirst(index[base], (name, override))] else index
  }

  /** The loop of _setvar_update_overrides from a split at position i on: var[..i] is the base and
      var[i+1..] the override. */
  function AddSplits(index: Index, name: Name, i: nat): Index
    requires i < |name|
    decreases i
  {
    if !LooksLikeOverride(name[i + 1..]) then index
    else
      var index' := AddPair(index, name[..i], name, name[i + 1..]);
      var j := LastUnderscore(name[..i]);
      if j <= 0 then index' else AddSplits(index', name, j)
  }

  /** _setvar_update_overrides. Without a '_' in the name, Python's rfind gives -1, and the slices then
      read the whole name as the override and the name without its last character as the base. */
  function UpdateOverrides(index: Index, name: Name): Index {
    var i := LastUnderscore(name);
    if i >= 0 then AddSplits(index, name, i)
    else if LooksLikeOverride(name) then AddPair(index, name[..|name| - 1], name, name)
    else index
  }

  /** The loop of delVar, with its own test of what an override looks like. */
  function RemoveSplits(index: Index, name: Name, i: nat): Index
    requires i < |name|
    decreases i
  {
    if !IsLower(name[i + 1..]) then index
    else
      var index' := RemovePair(index, name[..i], name, name[i + 1..]);
      var j := LastUnderscore(name[..i]);
      if j <= 0 then index' else RemoveSplits(index', name, j)
  }

  function ForgetOverrides(index: Index, name: Name): Index {
    var index' := index - {name};
    var i := LastUnderscore(name);
    if i >= 0 then RemoveSplits(index', name, i) else index'
  }

  /** Every pair spells its variable as base_override, and no pair is listed twice. */
  ghost predicate Spelled(index: Index) {
    forall base :: base in index ==>
      && NoDuplicates(index[base])
      && forall p: (Name, string) :: p in index[base] ==> p.0 == base + "_" + p.1
  }

  lemma AddPairSpelled(index: Index, base: Name, name: Name, override: string)
    requires Spelled(index)
    ensures Spelled(AddPair(index, base, name, override)) <==> name == base + "_" + override
  {
    var index' := AddPair(index, base, name, override);
    var p := (name, override);
    assert p in index'[base];
    if name == base + "_" + override {
      forall b | b in index' ensures NoDuplicates(index'[b]) && forall q: (Name, string) :: q in index'[b] ==> q.0 == b + "_" + q.1 {
        assert b in index ==> NoDuplicates(index[b]);
      }
    }
  }

  lemma {:induction false} AddSplitsSpelled(index: Index, name: Name, i: nat)
    requires Spelled(index) && i < |name| && name[i] == '_'
    ensures Spelled(AddSplits(index, name, i))
    decreases i
  {
    if LooksLikeOverride(name[i + 1..]) {
      assert name == name[..i] + "_" + name[i + 1..];
      AddPairSpelled(index, name[..i], name, name[i + 1..]);
      var j := LastUnderscore(name[..i]);
      if j > 0 {
        AddSplitsSpelled(AddPair(index, name[..i], name, name[i + 1..]), name, j);
      }
    }
  }

  /** Recording a name keeps the index well spelled exactly when the name has a '_' or does not look
      like an override itself. */
  lemma UpdateOverridesSpelled(index: Index, name: Name)
    requires Spelled(index)
    ensures Spelled(UpdateOverrides(index, name)) <==> '_' in name || !LooksLikeOverride(name)
  {
    var i := LastUnderscore(name);
    if i >= 0 {
      AddSplitsSpelled(index, name, i);
    } else if LooksLikeOverride(name) {
      AddPairSpelled(index, name[..|name| - 1], name, name);
      assert |name[..|name| - 1] + "_" + name| > |name|;
    }
  }

  /** `foo_append` files "foo" as the override "foo" of the variable "fo". */
  lemma MisspelledExample()
    ensures UpdateOverrides(map[], "foo") == map["fo" := [("foo", "foo")]]
    ensures !Spelled(UpdateOverrides(map[], "foo"))
  {
    assert LastUnderscore("foo") < 0;
    assert "foo"[..2] == "fo";
    assert [] + [("foo", "foo")] == [("foo", "foo")];
    UpdateOverridesSpelled(map[], "foo");
  }

  lemma RemovePairSpelled(index: Index, base: Name, name: Name, override: string)
    requires Spelled(index)
    ensures Spelled(RemovePair(index, base, name, override))
  {
    if base in index {
      RemoveFirstSubset(index[base], (name, override));
    }
  }

  lemma {:induction false} RemoveSplitsSpelled(index: Index, name: Name, i: nat)
    requires Spelled(index) && i < |name|
    ensures Spelled(RemoveSplits(index, name, i))
    decreases i
  {
    if IsLower(name[i + 1..]) {
      RemovePairSpelled(index, name[..i], name, name[i + 1..]);
      var j := LastUnderscore(name[..i]);
      if j > 0 {
        RemoveSplitsSpelled(RemovePair(index, name[..i], name, name[i + 1..]), name, j);
      }
    }
  }

  /** Deleting a variable keeps the index well spelled. */
  lemma ForgetOverridesSpelled(index: Index, name: Name)
    requires Spelled(index)
    ensures Spelled(ForgetOverrides(index, name))
  {
    var i := LastUnderscore(name);
    assert Spelled(index - {name});
    if i >= 0 {
      RemoveSplitsSpelled(index - {name}, name, i);
    }
  }

  /** The tests differ: an override without letters is filed by a write and not taken out by a deletion. */
  lemma DeletedStaysListed()
    ensures UpdateOverrides(map[], "A_1") == map["A" := [("A_1", "1")]]
    ensures ForgetOverrides(UpdateOverrides(map[], "A_1"), "A_1") == UpdateOverrides(map[], "A_1")
  {
    var name := "A_1";
    assert name[2..] == "1" && name[..1] == "A";
    assert name[..2][1] == '_';
    assert LastUnderscore(name) == 1;
    assert LastUnderscore("A") == -1;
    assert [] + [(name, "1")] == [(name, "1")];
    assert AddSplits(map[], name, 1) == map["A" := [(name, "1")]];
    assert !IsLower("1");
    assert "A" != name;
  }

  // ---- which pairs a write lists and a deletion takes out ----

  ghost predicate Lists(index: Index, base: Name, pair: (Name, string)) {
    base in index && pair in index[base]
  }

  /** The (base, override) splits of a name that the filing loop visits from position i on. */
  function SplitsFrom(name: Name, i: nat): set<(Name, string)>
    requires i < |name|
    decreases i
  {
    if !LooksLikeOverride(name[i + 1..]) then {}
    else
      var j := LastUnderscore(name[..i]);
      {(name[..i], name[i + 1..])} + if j <= 0 then {} else SplitsFrom(name, j)
  }

  /** The splits under which a write lists the name. */
  function FiledSplits(name: Name): set<(Name, string)> {
    var i := LastUnderscore(name);
    if i >= 0 then SplitsFrom(name, i)
    else if LooksLikeOverride(name) then {(name[..|name| - 1], name)}
    else {}
  }

  /** The splits that the loop of delVar visits. */
  function LowerSplitsFrom(name: Name, i: nat): set<(Name, string)>
    requires i < |name|
    decreases i
  {
    if !IsLower(name[i + 1..]) then {}
    else
      var j := LastUnderscore(name[..i]);
      {(name[..i], name[i + 1..])} + if j <= 0 then {} else LowerSplitsFrom(name, j)
  }

  function TakenSplits(name: Name): set<(Name, string)> {
    var i := LastUnderscore(name);
    if i >= 0 then LowerSplitsFrom(name, i) else {}
  }

  lemma {:induction false} AddSplitsLists(index: Index, name: Name, i: nat)
    requires i < |name|
    ensures forall b, p :: Lists(AddSplits(index, name, i), b, p) <==>
              Lists(index, b, p) || (p.0 == name && (b, p.1) in SplitsFrom(name, i))
    decreases i
  {
    if LooksLikeOverride(name[i + 1..]) {
      var index' := AddPair(index, name[..i], name, name[i + 1..]);
      AddPairLists(index, name[..i], name, name[i + 1..]);
      var j := LastUnderscore(name[..i]);
      if j > 0 {
        AddSplitsLists(index', name, j);
      }
    }
  }

  lemma AddPairLists(index: Index, base: Name, name: Name, override: string)
    ensures forall b, p :: Lists(AddPair(index, base, name, override), b, p) <==>
              Lists(index, b, p) || (b == base && p == (name, override))
  {
  }

  /** A write lists the name under its splits and changes nothing else in the index. */
  lemma UpdateOverridesLists(index: Index, name: Name)
    ensures forall b, p :: Lists(UpdateOverrides(index, name), b, p) <==>
              Lists(index, b, p) || (p.0 == name && (b, p.1) in FiledSplits(name))
  {
    var i := LastUnderscore(name);
    if i >= 0 {
      AddSplitsLists(index, name, i);
    } else if LooksLikeOverride(name) {
      AddPairLists(index, name[..|name| - 1], name, name);
    }
  }

  ghost predicate Unrepeated(index: Index) {
    forall b :: b in index ==> NoDuplicates(index[b])
  }

  lemma RemovePairLists(index: Index, base: Name, name: Name, override: string)
    requires Unrepeated(index)
    ensures Unrepeated(RemovePair(index, base, name, override))
    ensures forall b, p :: Lists(RemovePair(index, base, name, override), b, p) <==>
              Lists(index, b, p) && !(b == base && p == (name, override))
  {
    if base in index {
      var gone := (name, override);
      RemoveFirstSubset(index[base], gone);
      RemoveFirstIn(index[base], gone);
      var index' := RemovePair(index, base, name, override);
      assert index'[base] == RemoveFirst(index[base], gone);
      assert forall p: (Name, string) :: p in RemoveFirst(index[base], gone) <==> p in index[base] && p != gone;
      assert forall p: (Name, string) :: Lists(index', base, p) <==> Lists(index, base, p) && p != gone;
    }
  }

  lemma {:induction false} RemoveSplitsLists(index: Index, name: Name, i: nat)
    requires i < |name| && Unrepeated(index)
    ensures Unrepeated(RemoveSplits(index, name, i))
    ensures forall b, p :: Lists(RemoveSplits(index, name, i), b, p) <==>
              Lists(index, b, p) && !(p.0 == name && (b, p.1) in LowerSplitsFrom(name, i))
    decreases i
  {
    if IsLower(name[i + 1..]) {
      var index' := RemovePair(index, name[..i], name, name[i + 1..]);
      RemovePairLists(index, name[..i], name, name[i + 1..]);
      var j := LastUnderscore(name[..i]);
      if j > 0 {
        RemoveSplitsLists(index', name, j);
      }
    }
  }

  /** A deletion takes out the list under the name itself and the name's own pairs at the splits it visits. */
  lemma ForgetOverridesLists(index: Index, name: Name)
    requires Unrepeated(index)
    ensures Unrepeated(ForgetOverrides(index, name))
    ensures forall b, p :: Lists(ForgetOverrides(index, name), b, p) <==>
              b != name && Lists(index, b, p) && !(p.0 == name && (b, p.1) in TakenSplits(name))
  {
    var i := LastUnderscore(name);
    if i >= 0 {
      RemoveSplitsLists(index - {name}, name, i);
    }
  }

  /** From position i on, every suffix that is filed as an override also passes the test of delVar. */
  predicate LowerFrom(name: Name, i: nat)
    requires i < |name|
    decreases i
  {
    LooksLikeOverride(name[i + 1..]) ==>
      IsLower(name[i + 1..]) && var j := LastUnderscore(name[..i]); j <= 0 || LowerFrom(name, j)
  }

  /** The names that delVar takes out of the index wherever a write has put them. */
  predicate Forgettable(name: Name) {
    var i := LastUnderscore(name);
    if i >= 0 then LowerFrom(name, i) else !LooksLikeOverride(name)
  }

  lemma {:induction false} SplitsShort(name: Name, i: nat)
    requires i < |name|
    ensures forall s :: s in SplitsFrom(name, i) ==> |s.0| <= i
    ensures forall s :: s in LowerSplitsFrom(name, i) ==> |s.0| <= i
    decreases i
  {
    var j := LastUnderscore(name[..i]);
    if j > 0 {
      SplitsShort(name, j);
    }
  }

  lemma {:induction false} LowerFromMeans(name: Name, i: nat)
    requires i < |name|
    ensures LowerFrom(name, i) <==> SplitsFrom(name, i) <= LowerSplitsFrom(name, i)
    decreases i
  {
    if LooksLikeOverride(name[i + 1..]) {
      var here, j := (name[..i], name[i + 1..]), LastUnderscore(name[..i]);
      assert here in SplitsFrom(name, i);
      if IsLower(name[i + 1..]) && j > 0 {
        LowerFromMeans(name, j);
        SplitsShort(name, j);
        assert SplitsFrom(name, i) == {here} + SplitsFrom(name, j);
        assert LowerSplitsFrom(name, i) == {here} + LowerSplitsFrom(name, j);
        assert |here.0| == i && here !in SplitsFrom(name, j);
      }
    }
  }

  /** Every pair sits where a write of its variable puts it, once. */
  ghost predicate WellFiled(index: Index) {
    && Unrepeated(index)
    && forall b, p :: Lists(index, b, p) ==> (b, p.1) in FiledSplits(p.0)
  }

  /** A variable that was written and then deleted is listed nowhere exactly when it is forgettable. */
  lemma DeletionUnlists(index: Index, name: Name)
    requires WellFiled(index)
    ensures (forall b, o :: !Lists(ForgetOverrides(UpdateOverrides(index, name), name), b, (name, o))) <==> Forgettable(name)
  {
    var filed := UpdateOverrides(index, name);
    var after := ForgetOverrides(filed, name);
    UpdateOverridesWellFiled(index, name);
    UpdateOverridesLists(index, name);
    ForgetOverridesLists(filed, name);
    SplitsOf(name);
    if Forgettable(name) {
      forall b, o ensures !Lists(after, b, (name, o)) {
        assert Lists(filed, b, (name, o)) ==> (b, o) in FiledSplits(name);
      }
    } else {
      var s :| s in FiledSplits(name) && s !in TakenSplits(name);
      assert Lists(filed, s.0, (name, s.1));
      assert Lists(after, s.0, (name, s.1));
    }
  }

  /** Forgettable, in terms of the splits. */
  lemma SplitsOf(name: Name)
    ensures Forgettable(name) <==> FiledSplits(name) <= TakenSplits(name)
    ensures forall s :: s in FiledSplits(name) ==> s.0 != name
  {
    var i := LastUnderscore(name);
    if i >= 0 {
      LowerFromMeans(name, i);
      SplitsShort(name, i);
    } else if LooksLikeOverride(name) {
      assert (name[..|name| - 1], name) in FiledSplits(name);
    }
  }

  lemma UpdateOverridesWellFiled(index: Index, name: Name)
    requires WellFiled(index)
    ensures WellFiled(UpdateOverrides(index, name))
  {
    UpdateOverridesLists(index, name);
    UpdateOverridesUnrepeated(index, name);
  }

  lemma {:induction false} AddSplitsUnrepeated(index: Index, name: Name, i: nat)
    requires i < |name| && Unrepeated(index)
    ensures Unrepeated(AddSplits(index, name, i))
    decreases i
  {
    if LooksLikeOverride(name[i + 1..]) {
      var index' := AddPair(index, name[..i], name, name[i + 1..]);
      assert Unrepeated(index');
      var j := LastUnderscore(name[..i]);
      if j > 0 {
        AddSplitsUnrepeated(index', name, j);
      }
    }
  }

  lemma UpdateOverridesUnrepeated(index: Index, name: Name)
    requires Unrepeated(index)
    ensures Unrepeated(UpdateOverrides(index, name))
  {
    var i := LastUnderscore(name);
    if i >= 0 {
      AddSplitsUnrepeated(index, name, i);
    }
  }

  /** Pairs always name a variable longer than their base, spelled well or not. */
  ghost predicate Longer(index: Index) {
    forall base, p: (Name, string) :: base in index && p in index[base] ==> |p.0| > |base|
  }

  lemma {:induction false} AddSplitsLonger(index: Index, name: Name, i: nat)
    requires Longer(index) && i < |name|
    ensures Longer(AddSplits(index, name, i))
    decreases i
  {
    if LooksLikeOverride(name[i + 1..]) {
      var index' := AddPair(index, name[..i], name, name[i + 1..]);
      assert Longer(index');
      var j := LastUnderscore(name[..i]);
      if j > 0 {
        AddSplitsLonger(index', name, j);
      }
    }
  }

  lemma UpdateOverridesLonger(index: Index, name: Name)
    requires Longer(index)
    ensures Longer(UpdateOverrides(index, name))
  {
    var i := LastUnderscore(name);
    if i >= 0 {
      AddSplitsLonger(index, name, i);
    }
  }

  /** Deleting a variable drops pairs and its own base, nothing else. */
  lemma {:induction false} RemoveSplitsKeys(index: Index, name: Name, i: nat)
    requires i < |name|
    ensures RemoveSplits(index, name, i).Keys == index.Keys
    ensures Longer(index) ==> Longer(RemoveSplits(index, name, i))
    decreases i
  {
    if IsLower(name[i + 1..]) {
      var index' := RemovePair(index, name[..i], name, name[i + 1..]);
      if name[..i] in index {
        RemoveFirstIn(index[name[..i]], (name, name[i + 1..]));
      }
      var j := LastUnderscore(name[..i]);
      if j > 0 {
        RemoveSplitsKeys(index', name, j);
      }
    }
  }

  lemma ForgetOverridesKeys(index: Index, name: Name)
    ensures ForgetOverrides(index, name).Keys == index.Keys - {name}
    ensures Longer(index) ==> Longer(ForgetOverrides(index, name))
  {
    var i := LastUnderscore(name);
    if i >= 0 {
      RemoveSplitsKeys(index - {name}, name, i);
    }
  }

  // ---- writes, on the flat map ----

  datatype Write =
    | SetVar(name: Name, value: string, parsing: bool)
    | DelVar(name: Name)
    | SetVarFlag(name: Name, flag: Flag, value: string)
    | DelVarFlag(name: Name, flag: Flag)

  function KeywordText(k: Keyword): string {
    match k
    case Append => "_append"
    case Prepend => "_prepend"
    case Remove => "_remove"
  }

  predicate NoUpper(s: string) {
    forall c :: c in s ==> !('A' <= c <= 'Z')
  }

  /** The rest of a name is a keyword, alone or with an override behind another '_'. */
  function KeywordTail(rest: string, k: Keyword): Option<Option<string>> {
    var kw := KeywordText(k);
    if |rest| < |kw| || rest[..|kw|] != kw then None
    else
      var tail := rest[|kw|..];
      if tail == "" then Some(None)
      else if tail[0] == '_' && NoUpper(tail[1..]) then Some(Some(tail[1..]))
      else None
  }

  /** Splits a name at the first place, from i on, where base, keyword and override fit. */
  function ParseKeyword(name: Name, i: nat): Option<(Name, Keyword, Option<string>)>
    requires i <= |name|
    decreases |name| - i
  {
    var rest := name[i..];
    if KeywordTail(rest, Append).Some? then Some((name[..i], Append, KeywordTail(rest, Append).value))
    else if KeywordTail(rest, Prepend).Some? then Some((name[..i], Prepend, KeywordTail(rest, Prepend).value))
    else if KeywordTail(rest, Remove).Some? then Some((name[..i], Remove, KeywordTail(rest, Remove).value))
    else if i == |name| then None
    else ParseKeyword(name, i + 1)
  }

  /** The override, or each of its parts, is in force. */
  predicate InForce(o: string, overrides: seq<string>) {
    o in overrides || ('_' in o && forall part :: part in Split(o, '_') ==> part in overrides)
  }

  /** The variables behind the overrides in force, in index order. */
  function ActiveNames(pairs: seq<(Name, string)>, overrides: seq<string>): (r: seq<Name>)
    ensures forall a :: a in r ==> exists p :: p in pairs && p.0 == a
  {
    if pairs == [] then []
    else (if InForce(pairs[0].1, overrides) then [pairs[0].0] else []) + ActiveNames(pairs[1..], overrides)
  }

  datatype Flattened = Flattened(vars: Vars, index: Index)

  ghost function FlatDel(s: Flattened, name: Name): Flattened {
    Flattened(Put(s.vars, name, EMPTY), ForgetOverrides(s.index, name))
  }

  ghost function FlatDelAll(s: Flattened, names: seq<Name>): Flattened {
    if names == [] then s else FlatDel(FlatDelAll(s, names[..|names| - 1]), names[|names| - 1])
  }

  /** The state after the conditional variables of n that are in force are gone. */
  ghost function Displaced(s: Flattened, n: Name, overrides: seq<string>): Flattened {
    if n in s.index then FlatDelAll(s, ActiveNames(s.index[n], overrides)) else s
  }

  ghost function FlatWriteOne(s: Flattened, overrides: seq<string>, w: Write): Flattened {
    match w
    case DelVar(n) => FlatDel(s, n)
    case SetVarFlag(n, flag, value) =>
      var e := At(s.vars, n);
      Flattened(Put(s.vars, n, e.(flags := e.flags[flag := value])),
                if flag == DEFAULTVAL && '_' in n then UpdateOverrides(s.index, n) else s.index)
    case DelVarFlag(n, flag) =>
      var e := At(s.vars, n);
      s.(vars := Put(s.vars, n, e.Without(flag)))
    case SetVar(n, value, parsing) =>
      var kw := ParseKeyword(n, 0);
      if kw.Some? then
        var (base, k, add) := kw.value;
        var e := At(s.vars, base);
        Flattened(Put(s.vars, base, e.WithOps(k, e.Ops(k) + [Op(value, add)])), UpdateOverrides(s.index, base))
      else
        var e := At(s.vars, n);
        if parsing then
          Flattened(Put(s.vars, n, e.(flags := e.flags[CONTENT := value])),
                    if '_' in n then UpdateOverrides(s.index, n) else s.index)
        else
          var s1 := Displaced(s, n, overrides);
          Flattened(Put(s1.vars, n, Entry(e.flags[CONTENT := value], [], [], [])),
                    if '_' in n then UpdateOverrides(s1.index - {n}, n) else s1.index - {n})
  }

  ghost function FlatRun(s: Flattened, overrides: seq<string>, ws: seq<Write>): Flattened {
    if ws == [] then s
    else FlatWriteOne(FlatRun(s, overrides, ws[..|ws| - 1]), overrides, ws[|ws| - 1])
  }

  /** No run of writes ever files a pair under a base as long as its variable. */
  lemma {:induction false} FlatRunLonger(s: Flattened, overrides: seq<string>, ws: seq<Write>)
    requires Longer(s.index)
    ensures Longer(FlatRun(s, overrides, ws).index)
  {
    if ws != [] {
      var before := FlatRun(s, overrides, ws[..|ws| - 1]);
      FlatRunLonger(s, overrides, ws[..|ws| - 1]);
      FlatWriteLonger(before, overrides, ws[|ws| - 1]);
    }
  }

  lemma {:induction false} FlatDelAllIndex(s: Flattened, names: seq<Name>)
    ensures Longer(s.index) ==> Longer(FlatDelAll(s, names).index)
    ensures FlatDelAll(s, names).index.Keys == s.index.Keys - (set n | n in names)
    ensures Spelled(s.index) ==> Spelled(FlatDelAll(s, names).index)
  {
    if names != [] {
      var init, last := names[..|names| - 1], names[|names| - 1];
      FlatDelAllIndex(s, init);
      ForgetOverridesKeys(FlatDelAll(s, init).index, last);
      if Spelled(s.index) {
        ForgetOverridesSpelled(FlatDelAll(s, init).index, last);
      }
      assert names == init + [last];
    }
  }

  lemma FlatWriteLonger(s: Flattened, overrides: seq<string>, w: Write)
    requires Longer(s.index)
    ensures Longer(FlatWriteOne(s, overrides, w).index)
  {
    match w {
      case DelVar(n) => ForgetOverridesKeys(s.index, n);
      case SetVarFlag(n, flag, value) => UpdateOverridesLonger(s.index, n);
      case DelVarFlag(n, flag) =>
      case SetVar(n, value, parsing) =>
        var kw := ParseKeyword(n, 0);
        if kw.Some? {
          UpdateOverridesLonger(s.index, kw.value.0);
        } else {
          var s1 := Displaced(s, n, overrides);
          if n in s.index {
            FlatDelAllIndex(s, ActiveNames(s.index[n], overrides));
          }
          assert Longer(s1.index - {n});
          UpdateOverridesLonger(s1.index - {n}, n);
          UpdateOverridesLonger(s.index, n);
        }
    }
  }

  /** A write whose operation keyword is put on a name that looks like an override without having a '_'. */
  predicate Misspells(w: Write) {
    w.SetVar? && ParseKeyword(w.name, 0).Some?
    && '_' !in ParseKeyword(w.name, 0).value.0 && LooksLikeOverride(ParseKeyword(w.name, 0).value.0)
  }

  /** One write keeps the index well spelled exactly when it is not one of those. */
  lemma FlatWriteSpelled(s: Flattened, overrides: seq<string>, w: Write)
    requires Spelled(s.index)
    ensures Spelled(FlatWriteOne(s, overrides, w).index) <==> !Misspells(w)
  {
    match w {
      case DelVar(n) => ForgetOverridesSpelled(s.index, n);
      case SetVarFlag(n, flag, value) => UpdateOverridesSpelled(s.index, n);
      case DelVarFlag(n, flag) =>
      case SetVar(n, value, parsing) =>
        var kw := ParseKeyword(n, 0);
        if kw.Some? {
          UpdateOverridesSpelled(s.index, kw.value.0);
        } else {
          var s1 := Displaced(s, n, overrides);
          if n in s.index {
            FlatDelAllIndex(s, ActiveNames(s.index[n], overrides));
          }
          assert Spelled(s1.index - {n});
          UpdateOverridesSpelled(s1.index - {n}, n);
          UpdateOverridesSpelled(s.index, n);
        }
    }
  }

  lemma ForgetOverridesWellFiled(index: Index, name: Name)
    requires WellFiled(index)
    ensures WellFiled(ForgetOverrides(index, name))
  {
    ForgetOverridesLists(index, name);
  }

  lemma {:induction false} FlatDelAllWellFiled(s: Flattened, names: seq<Name>)
    requires WellFiled(s.index)
    ensures WellFiled(FlatDelAll(s, names).index)
  {
    if names != [] {
      var init := names[..|names| - 1];
      FlatDelAllWellFiled(s, init);
      ForgetOverridesWellFiled(FlatDelAll(s, init).index, names[|names| - 1]);
    }
  }

  lemma ShrunkWellFiled(index: Index, n: Name)
    requires WellFiled(index)
    ensures WellFiled(index - {n})
  {
    assert forall b, p :: Lists(index - {n}, b, p) ==> Lists(index, b, p);
  }

  lemma FlatWriteWellFiled(s: Flattened, overrides: seq<string>, w: Write)
    requires WellFiled(s.index)
    ensures WellFiled(FlatWriteOne(s, overrides, w).index)
  {
    hide WellFiled;
    match w {
      case DelVar(n) => ForgetOverridesWellFiled(s.index, n);
      case SetVarFlag(n, flag, value) => UpdateOverridesWellFiled(s.index, n);
      case DelVarFlag(n, flag) =>
      case SetVar(n, value, parsing) =>
        var kw := ParseKeyword(n, 0);
        if kw.Some? {
          UpdateOverridesWellFiled(s.index, kw.value.0);
        } else {
          var s1 := Displaced(s, n, overrides);
          if n in s.index {
            FlatDelAllWellFiled(s, ActiveNames(s.index[n], overrides));
          }
          ShrunkWellFiled(s1.index, n);
          UpdateOverridesWellFiled(s1.index - {n}, n);
          UpdateOverridesWellFiled(s.index, n);
        }
    }
  }

  /** Over any run, every pair sits where a write of its variable puts it. */
  lemma {:induction false} FlatRunWellFiled(s: Flattened, overrides: seq<string>, ws: seq<Write>)
    requires WellFiled(s.index)
    ensures WellFiled(FlatRun(s, overrides, ws).index)
  {
    if ws != [] {
      var init := ws[..|ws| - 1];
      FlatRunWellFiled(s, overrides, init);
      FlatWriteWellFiled(FlatRun(s, overrides, init), overrides, ws[|ws| - 1]);
    }
  }

  /** After any run, deleting a forgettable name leaves it listed nowhere. */
  lemma RunThenDelete(s: Flattened, overrides: seq<string>, ws: seq<Write>, name: Name)
    requires WellFiled(s.index) && Forgettable(name)
    ensures var after := FlatRun(s, overrides, ws + [DelVar(name)]);
      forall b, o :: !Lists(after.index, b, (name, o))
  {
    var all := ws + [DelVar(name)];
    assert all[..|all| - 1] == ws;
    var before := FlatRun(s, overrides, ws);
    FlatRunWellFiled(s, overrides, ws);
    ForgetOverridesLists(before.index, name);
    SplitsOf(name);
  }

  /** Over any run of writes without such a name, every pair in the index spells its variable as
      base_override and none is repeated. */
  lemma {:induction false} FlatRunSpelled(s: Flattened, overrides: seq<string>, ws: seq<Write>)
    requires Spelled(s.index)
    requires forall w :: w in ws ==> !Misspells(w)
    ensures Spelled(FlatRun(s, overrides, ws).index)
  {
    if ws != [] {
      var init, last := ws[..|ws| - 1], ws[|ws| - 1];
      FlatRunSpelled(s, overrides, init);
      FlatWriteSpelled(FlatRun(s, overrides, init), overrides, last);
    }
  }
}
