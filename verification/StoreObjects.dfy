/** The objects a store is made of, some of them shared with its copies: the chain of dictionaries, with a
    dictionary for each variable and lists of operations in it, and the override index with its lists. */
module StoreObjects {
  import opened DataStore
  import opened Options
  import opened Sequences
  import opened Strings
  import opened StoreWrites

  // ---- the objects ----

  /** The list under "_append", "_prepend" or "_remove" of one variable. */
  class OpList {
    var items: seq<Op>

    constructor (items: seq<Op>)
      ensures this.items == items
    {
      this.items := items;
    }
  }

  /** A list of [variable, override] pairs in the index. */
  class PairList {
    var items: seq<(Name, string)>

    constructor (items: seq<(Name, string)>)
      ensures this.items == items
    {
      this.items := items;
    }
  }

  /** The dictionary of one variable. */
  class VarDict {
    var flags: map<Flag, string>
    var ops: map<Keyword, OpList>

    constructor ()
      ensures flags == map[] && ops == map[]
    {
      flags, ops := map[], map[];
    }

    /** copy.copy: a new dictionary with the same values, the lists among them being the same objects. */
    constructor Shallow(d: VarDict)
      ensures flags == d.flags && ops == d.ops
    {
      flags, ops := d.flags, d.ops;
    }
  }

  /** One dictionary of the chain; its "_data" link is the next layer in the list. */
  class Layer {
    var vars: map<Name, VarDict>

    constructor ()
      ensures vars == map[]
    {
      vars := map[];
    }
  }

  // ---- what they say ----

  function ItemsOf(ops: map<Keyword, OpList>, k: Keyword): seq<Op>
    reads ops.Values
  {
    if k in ops then ops[k].items else []
  }

  function EntryWith(flags: map<Flag, string>, ops: map<Keyword, OpList>): Entry
    reads ops.Values
  {
    Entry(flags, ItemsOf(ops, Append), ItemsOf(ops, Prepend), ItemsOf(ops, Remove))
  }

  function EntryOf(d: VarDict): Entry
    reads d, d.ops.Values
  {
    EntryWith(d.flags, d.ops)
  }

  ghost function ListsIn(ds: set<VarDict>): set<OpList>
    reads ds
  {
    set d, k | d in ds && k in d.ops :: d.ops[k]
  }

  ghost function Dicts(ls: seq<Layer>): set<VarDict>
    reads ls
  {
    set l, n | l in ls && n in l.vars :: l.vars[n]
  }

  ghost function VarsOf(l: Layer): Vars
    reads l, l.vars.Values, ListsIn(l.vars.Values)
  {
    map n | n in l.vars :: EntryOf(l.vars[n])
  }

  ghost function Contents(ls: seq<Layer>): (r: seq<Vars>)
    reads ls, Dicts(ls), ListsIn(Dicts(ls))
    ensures |r| == |ls|
  {
    if ls == [] then [] else [VarsOf(ls[0])] + Contents(ls[1..])
  }

  function IndexOf(lists: map<Name, PairList>): Index
    reads lists.Values
  {
    map b | b in lists :: lists[b].items
  }

  /** No operation list is empty. */
  ghost predicate FilledLists(ops: map<Keyword, OpList>)
    reads ops.Values
  {
    forall k :: k in ops ==> ops[k].items != []
  }

  ghost predicate Filled(ls: seq<Layer>)
    reads ls, Dicts(ls), ListsIn(Dicts(ls))
  {
    forall d :: d in Dicts(ls) ==> FilledLists(d.ops)
  }

  /** The dictionaries of the own layer are its alone: different for different names, and in no other layer.
      The lists in them may be shared. */
  ghost predicate Separate(ls: seq<Layer>)
    reads ls
  {
    && ls != [] && NoDuplicates(ls)
    && (forall m, n :: m in ls[0].vars && n in ls[0].vars && m != n ==> ls[0].vars[m] != ls[0].vars[n])
    && (forall n :: n in ls[0].vars ==> ls[0].vars[n] !in Dicts(ls[1..]))
  }

  // ---- what a change does to what they say ----

  /** When nothing the layers reach has been written, they say what they said. */
  twostate lemma {:induction false} SameContents(ls: seq<Layer>)
    requires forall l :: l in ls ==> l.vars == old(l.vars)
    requires forall d :: d in old(Dicts(ls)) ==> d.flags == old(d.flags)
    requires forall d :: d in old(Dicts(ls)) ==> d.ops == old(d.ops)
    requires forall o :: o in old(ListsIn(Dicts(ls))) ==> o.items == old(o.items)
    ensures Contents(ls) == old(Contents(ls)) && Dicts(ls) == old(Dicts(ls))
  {
    if ls != [] {
      assert forall l :: l in ls[1..] ==> l in ls;
      SameContents(ls[1..]);
      forall n | n in ls[0].vars ensures EntryOf(ls[0].vars[n]) == old(EntryOf(ls[0].vars[n])) {
        var d := ls[0].vars[n];
        assert d in old(Dicts(ls));
        forall k | k in d.ops ensures d.ops[k].items == old(d.ops[k].items) {
          assert d.ops[k] in old(ListsIn(Dicts(ls)));
        }
      }
      assert VarsOf(ls[0]) == old(VarsOf(ls[0]));
    }
  }

  lemma ChangedEntry(d: VarDict)
    ensures EntryOf(d) == EntryWith(d.flags, d.ops)
  {
  }

  /** One dictionary has changed, or is new, and its lists are not empty. */
  twostate lemma StaysFilled(ls: seq<Layer>, new d: VarDict)
    requires old(Filled(ls)) && FilledLists(d.ops)
    requires forall x :: x in Dicts(ls) && x != d ==> x in old(Dicts(ls)) && x.ops == old(x.ops)
    requires forall o :: o in old(ListsIn(Dicts(ls))) ==> o.items == old(o.items)
    ensures Filled(ls)
  {
    forall x | x in Dicts(ls) ensures FilledLists(x.ops) {
      if x != d {
        forall k | k in x.ops ensures x.ops[k].items != [] {
          assert x.ops[k] in old(ListsIn(Dicts(ls)));
        }
      }
    }
  }

  lemma EmptyDict(flags: map<Flag, string>, ops: map<Keyword, OpList>)
    requires FilledLists(ops)
    ensures EntryWith(flags, ops) == EMPTY <==> flags == map[] && ops == map[]
  {
    if EntryWith(flags, ops) == EMPTY {
      forall k ensures k !in ops {
        match k {
          case Append =>
          case Prepend =>
          case Remove =>
        }
      }
    }
  }

  /** The own layer says one thing else, the layers below what they said. */
  lemma OwnSays(ls: seq<Layer>, own0: Vars, below: seq<Vars>, n: Name, e: Entry)
    requires ls != [] && Contents(ls[1..]) == below && VarsOf(ls[0]) == own0[n := e]
    ensures Flat(Contents(ls)) == Put(Flat([own0] + below), n, e)
  {
    var before := [own0] + below;
    assert Contents(ls) == before[0 := before[0][n := e]];
    FlatWrite(before, n, e);
  }

  /** A new, empty own layer says nothing. */
  lemma EmptyOwn(ls: seq<Layer>, below: seq<Layer>)
    requires |ls| == |below| + 1 && ls == [ls[0]] + below && ls[0].vars == map[]
    requires ls[0] !in below && NoDuplicates(below) && Filled(below)
    ensures Separate(ls) && Filled(ls) && Dicts(ls) == Dicts(below)
    ensures Flat(Contents(ls)) == Flat(Contents(below))
  {
    assert ls[1..] == below;
    assert Dicts(ls) == Dicts(below);
    assert Contents(ls) == [map[]] + Contents(below);
    NewLayer(Contents(below));
  }

  function FlagsWithout(flags: map<Flag, string>, flag: Flag): map<Flag, string> {
    if flag == KeywordText(Append) || flag == KeywordText(Prepend) || flag == KeywordText(Remove) then flags else flags - {flag}
  }

  function OpsWithout(ops: map<Keyword, OpList>, flag: Flag): map<Keyword, OpList> {
    if flag == KeywordText(Append) then ops - {Append}
    else if flag == KeywordText(Prepend) then ops - {Prepend}
    else if flag == KeywordText(Remove) then ops - {Remove}
    else ops
  }

  lemma WithoutFlag(d: VarDict, flag: Flag)
    requires FilledLists(d.ops)
    ensures FilledLists(OpsWithout(d.ops, flag))
    ensures EntryWith(FlagsWithout(d.flags, flag), OpsWithout(d.ops, flag)) == EntryOf(d).Without(flag)
  {
  }

  lemma WithoutNothing(flag: Flag)
    ensures EMPTY.Without(flag) == EMPTY
  {
    assert EMPTY.flags - {flag} == map[];
  }

  lemma WithFlag(d: VarDict, flag: Flag, value: string)
    ensures EntryWith(d.flags[flag := value], d.ops) == EntryOf(d).(flags := EntryOf(d).flags[flag := value])
  {
  }

  lemma LongerList(d: VarDict, k: Keyword, l: OpList)
    requires FilledLists(d.ops) && l.items != []
    ensures FilledLists(d.ops[k := l]) && EntryWith(d.flags, d.ops[k := l]) == EntryOf(d).WithOps(k, l.items)
  {
  }

  lemma NoOps(flags: map<Flag, string>)
    ensures EntryWith(flags, map[]) == Entry(flags, [], [], []) && FilledLists(map[])
  {
  }

  lemma EmptyDictEntry(d: VarDict)
    requires FilledLists(d.ops)
    ensures EntryOf(d) == EMPTY <==> d.flags == map[] && d.ops == map[]
  {
    EmptyDict(d.flags, d.ops);
  }

  lemma FlagsKept(d: VarDict)
    ensures EntryOf(d).flags == d.flags
  {
  }

  lemma OwnNotBelow(ls: seq<Layer>)
    requires Separate(ls)
    ensures ls != [] && ls[0] !in ls[1..]
    ensures forall d :: d in ls[0].vars.Values ==> d !in Dicts(ls[1..])
  {
  }

  lemma OtherDicts(ls: seq<Layer>, n: Name)
    requires Separate(ls) && n in ls[0].vars
    ensures ls[0].vars[n] !in Dicts(ls[1..])
    ensures forall m :: m in ls[0].vars && m != n ==> ls[0].vars[m] != ls[0].vars[n]
  {
  }

  /** A dictionary that says what is visible changes nothing. */
  lemma KeepsVisible(ls: seq<Layer>, n: Name)
    ensures Put(Flat(Contents(ls)), n, At(Flat(Contents(ls)), n)) == Flat(Contents(ls))
  {
    PutVisible(Contents(ls), n);
  }

  lemma OwnFirst(ls: seq<Layer>)
    requires ls != []
    ensures Contents(ls) == [VarsOf(ls[0])] + Contents(ls[1..])
  {
  }

  /** A dictionary that no layer has, put into the own layer. */
  lemma InstalledSeparate(ls: seq<Layer>, n: Name, d: VarDict)
    requires ls != [] && NoDuplicates(ls) && n in ls[0].vars && ls[0].vars[n] == d && d !in Dicts(ls[1..])
    requires forall m :: m in ls[0].vars && m != n ==> ls[0].vars[m] != d && ls[0].vars[m] !in Dicts(ls[1..])
    requires forall m, k :: m in ls[0].vars && k in ls[0].vars && m != n && k != n && m != k ==> ls[0].vars[m] != ls[0].vars[k]
    ensures Separate(ls)
  {
  }

  /** A layer in which one entry differs. */
  lemma OneDiffers(l: Layer, vars: Vars, n: Name)
    requires n in l.vars && l.vars.Keys == vars.Keys + {n}
    requires forall m :: m in l.vars && m != n ==> EntryOf(l.vars[m]) == vars[m]
    ensures VarsOf(l) == vars[n := EntryOf(l.vars[n])]
  {
    var left, right := VarsOf(l), vars[n := EntryOf(l.vars[n])];
    assert left.Keys == right.Keys;
    forall m | m in left ensures left[m] == right[m] {
    }
  }

  lemma IndexUpdate(m: map<Name, PairList>, base: Name, l: PairList)
    ensures IndexOf(m[base := l]) == IndexOf(m)[base := l.items]
  {
  }

  ghost predicate ValidChain(ls: seq<Layer>, own: set<VarDict>, dicts: set<VarDict>, lists: set<OpList>)
    reads ls, dicts, lists
  {
    && ls != [] && own == ls[0].vars.Values && dicts == Dicts(ls) && lists == ListsIn(dicts)
    && Separate(ls) && Filled(ls)
  }

  lemma EmptyOwnChain(ls: seq<Layer>, below: seq<Layer>, own: set<VarDict>, dicts: set<VarDict>, lists: set<OpList>)
    requires ValidChain(below, own, dicts, lists)
    requires |ls| == |below| + 1 && ls == [ls[0]] + below && ls[0].vars == map[] && ls[0] !in below
    ensures ValidChain(ls, {}, dicts, lists) && Flat(Contents(ls)) == Flat(Contents(below))
  {
    EmptyOwn(ls, below);
    hide Flat, Contents, Filled, Separate;
  }

  /** The dictionaries of a store: its own one first, then those of the stores it was copied from. */
  class Chain {
    const layers: seq<Layer>
    /** The variable dictionaries of the own layer, those of all layers, and the operation lists in them. */
    ghost var own: set<VarDict>
    ghost var dicts: set<VarDict>
    ghost var lists: set<OpList>
    /** The flat map of the layers. */
    ghost var vars: Vars

    ghost predicate Valid()
      reads this, layers, dicts, lists
    {
      ValidChain(layers, own, dicts, lists) && vars == Flat(Contents(layers))
    }

    /** The own layer has gained new dictionaries only. */
    twostate predicate OwnOrFresh()
      reads this
    {
      forall d :: d in own ==> d in old(own) || fresh(d)
    }

    constructor ()
      ensures Valid() && vars == map[] && fresh(layers) && |layers| == 1 && own == {}
    {
      var first := new Layer();
      layers := [first];
      own, dicts, lists := {}, {}, {};
      vars := map[];
      new;
      assert layers[1..] == [];
      assert Dicts(layers) == {} && ListsIn({}) == {};
      assert Contents(layers) == [map[]] + [];
      NewLayer([]);
    }

    lemma HasOwn()
      requires Valid()
      ensures layers != []
    {
    }

    lemma VisibleStays(n: Name)
      requires Valid()
      ensures Put(vars, n, At(vars, n)) == vars
    {
      KeepsVisible(layers, n);
    }

    /** A new own layer over the layers of the parent. */
    constructor Over(parent: Chain)
      requires parent.Valid()
      ensures Valid() && vars == parent.vars && own == {}
      ensures |layers| == |parent.layers| + 1 && fresh(layers[0]) && layers[1..] == parent.layers
    {
      hide Flat;
      var first := new Layer();
      layers := [first] + parent.layers;
      own, dicts, lists := {}, parent.dicts, parent.lists;
      vars := parent.vars;
      new;
      assert layers[0] !in parent.layers;
      EmptyOwnChain(layers, parent.layers, parent.own, dicts, lists);
    }

    /** _findVar. */
    method FindVar(n: Name) returns (d: Option<VarDict>)
      ensures d.Some? ==> d.value in Dicts(layers) && Find(Contents(layers), n) == Some(EntryOf(d.value))
      ensures d.None? ==> Find(Contents(layers), n) == None
    {
      var i := 0;
      d := None;
      while i < |layers|
        invariant 0 <= i <= |layers|
        invariant Find(Contents(layers), n) == Find(Contents(layers[i..]), n)
      {
        assert layers[i..][1..] == layers[i + 1..];
        assert Contents(layers[i..])[0] == VarsOf(layers[i]);
        assert Contents(layers[i..])[1..] == Contents(layers[i + 1..]);
        if n in layers[i].vars {
          assert layers[i] in layers;
          return Some(layers[i].vars[n]);
        }
        i := i + 1;
      }
    }

    /** The visible dictionary of a variable, if it has one that is not empty. */
    method Lookup(n: Name) returns (d: Option<VarDict>)
      requires Valid()
      ensures d.None? ==> At(vars, n) == EMPTY
      ensures d.Some? ==> d.value in dicts && EntryOf(d.value) == At(vars, n) != EMPTY && FilledLists(d.value.ops)
    {
      hide Flat, Contents, Put;
      PutVisible(Contents(layers), n);
      d := FindVar(n);
      if d.Some? {
        EmptyDict(d.value.flags, d.value.ops);
        if d.value.flags == map[] && d.value.ops == map[] {
          d := None;
        }
      }
    }

    /** The flags and operations a read finds. */
    method Visible(n: Name) returns (e: Entry)
      requires Valid()
      ensures e == At(vars, n)
    {
      hide Valid;
      var found := Lookup(n);
      e := if found.Some? then EntryOf(found.value) else EMPTY;
    }

    // ---- iteration ----

    /** The recursive walk from layer i down. Names found empty above are skipped below. */
    method KeyList(i: nat, deleted: set<Name>, skipped: set<Name>, ghost stack: seq<Vars>) returns (klist: set<Name>)
      requires i < |layers| && Filled(layers) && Contents(layers[i..]) == stack
      ensures klist == Flat(stack).Keys - deleted - skipped
      decreases |layers| - i
    {
      hide Flat, Contents, Listed, Hidden, Filled, VarsOf;
      assert layers[i..][0] == layers[i] && layers[i..][1..] == layers[i + 1..];
      OwnFirst(layers[i..]);
      WalkLayer(stack, deleted, skipped);
      NoLayers(stack[1..]);
      var own, gone := WalkOne(layers[i], deleted, skipped, stack[0]);
      klist := own;
      if i + 1 < |layers| {
        SameContents(layers);
        SameContents(layers[i + 1..]);
        var below := KeyList(i + 1, gone, skipped, stack[1..]);
        klist := klist + below;
      }
    }

    /** The loop over one dictionary: lists the names, and notes those that hide what is below. */
    method WalkOne(l: Layer, deleted: set<Name>, skipped: set<Name>, ghost vars: Vars)
      returns (klist: set<Name>, gone: set<Name>)
      requires l in layers && Filled(layers) && VarsOf(l) == vars
      ensures klist == Listed(vars, deleted, skipped)
      ensures gone == deleted + Hidden(vars, deleted, skipped)
    {
      hide EntryOf, FilledLists;
      gone := deleted;
      klist := {};
      var left := l.vars.Keys;
      while left != {}
        invariant left <= l.vars.Keys
        invariant forall n :: n in klist <==> n in Listed(vars, deleted, skipped) && n !in left
        invariant forall n :: n in gone <==> n in deleted || (n in Hidden(vars, deleted, skipped) && n !in left)
        decreases |left|
      {
        var n :| n in left;
        if n !in gone && n !in skipped {
          var d := l.vars[n];
          assert d in Dicts(layers);
          EmptyDictEntry(d);
          if d.flags == map[] && d.ops == map[] {
            gone := gone + {n};
          } else {
            klist := klist + {n};
          }
        }
        left := left - {n};
      }
    }

    // ---- writes to the own layer ----

    /** The ghost fields follow the layers. */
    ghost method Refresh()
      requires Separate(layers) && Filled(layers)
      modifies this
      ensures Valid() && own == layers[0].vars.Values && vars == old(Flat(Contents(layers)))
    {
      hide Flat, Contents, Separate, Filled, Dicts, ListsIn;
      OwnNotBelow(layers);
      own, dicts, lists, vars := layers[0].vars.Values, Dicts(layers), ListsIn(Dicts(layers)), Flat(Contents(layers));
    }

    /** Puts a dictionary that nobody else has into the own layer. */
    method Install(n: Name, d: VarDict, ghost e: Entry)
      requires Valid() && d !in dicts && FilledLists(d.ops) && EntryOf(d) == e
      modifies this, layers[0]
      ensures Valid() && vars == Put(old(vars), n, e)
      ensures layers[0].vars == old(layers[0].vars)[n := d] && own <= old(own) + {d}
      ensures EntryOf(d) == e
    {
      hide Flat, Contents, EntryOf, Separate, FilledLists, Dicts, ListsIn, Filled;
      Place(n, d, e);
      StaysFilled(layers, d);
      Refresh();
    }

    method Place(n: Name, d: VarDict, ghost e: Entry)
      requires Separate(layers) && d !in Dicts(layers) && EntryOf(d) == e
      modifies layers[0]
      ensures layers[0].vars == old(layers[0].vars)[n := d]
      ensures Separate(layers) && Dicts(layers) <= old(Dicts(layers)) + {d}
      ensures Flat(Contents(layers)) == Put(old(Flat(Contents(layers))), n, e)
    {
      hide Flat, Contents, EntryOf;
      ghost var own0, below := VarsOf(layers[0]), Contents(layers[1..]);
      OwnFirst(layers);
      layers[0].vars := layers[0].vars[n := d];
      SameContents(layers[1..]);
      OneDiffers(layers[0], own0, n);
      OwnSays(layers, own0, below, n, e);
      InstalledSeparate(layers, n, d);
    }

    /** Changes one of its own dictionaries in place. */
    method Change(n: Name, d: VarDict, flags: map<Flag, string>, ops: map<Keyword, OpList>, ghost e: Entry)
      requires Valid() && n in layers[0].vars && layers[0].vars[n] == d && FilledLists(ops) && EntryWith(flags, ops) == e
      modifies this, d
      ensures Valid() && vars == Put(old(vars), n, e)
      ensures d.flags == flags && d.ops == ops && own == old(own)
    {
      hide Flat, Contents, EntryWith, EntryOf, FilledLists, Separate, ListsIn, Dicts, Put, VarsOf, Filled;
      HasOwn();
      Rewrite(n, d, flags, ops, e);
      StaysFilled(layers, d);
      Refresh();
    }

    method Rewrite(n: Name, d: VarDict, flags: map<Flag, string>, ops: map<Keyword, OpList>, ghost e: Entry)
      requires Separate(layers) && n in layers[0].vars && layers[0].vars[n] == d
      requires EntryWith(flags, ops) == e
      modifies d
      ensures d.flags == flags && d.ops == ops
      ensures Flat(Contents(layers)) == Put(old(Flat(Contents(layers))), n, e)
    {
      hide Flat, Contents, EntryOf, Separate, Put, Dicts, ListsIn;
      OwnNotBelow(layers);
      OwnFirst(layers);
      OtherDicts(layers, n);
      ghost var own0, below := VarsOf(layers[0]), Contents(layers[1..]);
      d.flags := flags;
      d.ops := ops;
      SameContents(layers[1..]);
      OneDiffers(layers[0], own0, n);
      ChangedEntry(d);
      OwnSays(layers, own0, below, n, EntryOf(d));
    }

    /** _makeShadowCopy: the own layer gets a shallow copy of the visible dictionary, or an empty one. */
    method MakeShadowCopy(n: Name)
      requires Valid() && n !in layers[0].vars
      modifies this, layers[0]
      ensures Valid() && vars == old(vars) && OwnOrFresh()
      ensures n in layers[0].vars && EntryOf(layers[0].vars[n]) == At(vars, n)
    {
      hide Flat, Contents, Put, Valid;
      VisibleStays(n);
      HasOwn();
      var d := ShadowOf(n);
      Install(n, d, At(vars, n));
    }

    /** copy.copy of the visible dictionary, or {}. */
    method ShadowOf(n: Name) returns (d: VarDict)
      requires Valid()
      ensures fresh(d) && EntryOf(d) == At(vars, n) && FilledLists(d.ops)
    {
      hide Valid;
      var found := Lookup(n);
      if found.Some? {
        d := new VarDict.Shallow(found.value);
      } else {
        d := new VarDict();
        EmptyDict(d.flags, d.ops);
      }
    }

    /** The dictionary of a variable in the own layer, put there first if need be. */
    method EnsureOwn(n: Name) returns (d: VarDict)
      requires Valid()
      modifies this, layers[0]
      ensures Valid() && vars == old(vars) && OwnOrFresh()
      ensures n in layers[0].vars && layers[0].vars[n] == d && d in own && FilledLists(d.ops)
      ensures EntryOf(d) == At(vars, n)
    {
      if n in layers[0].vars {
        OwnFirst(layers);
        OwnIsVisible(Contents(layers), n);
      } else {
        MakeShadowCopy(n);
      }
      d := layers[0].vars[n];
      assert layers[0] in layers && d in Dicts(layers);
    }

    /** self.dict[n][flag] = value */
    method SetFlag(n: Name, flag: Flag, value: string)
      requires Valid()
      modifies this, layers[0], own
      ensures Valid() && OwnOrFresh()
      ensures var e := At(old(vars), n); vars == Put(old(vars), n, e.(flags := e.flags[flag := value]))
    {
      hide Put, Valid, FilledLists, EntryOf, EntryWith;
      HasOwn();
      var d := EnsureOwn(n);
      WithFlag(d, flag, value);
      ghost var e := At(vars, n);
      Change(n, d, d.flags[flag := value], d.ops, e.(flags := e.flags[flag := value]));
    }

    /** del self.dict[n][flag]; the three operation lists are flags like any other. */
    method RemoveFlag(n: Name, flag: Flag)
      requires Valid()
      modifies this, layers[0], own
      ensures Valid() && OwnOrFresh()
      ensures vars == Put(old(vars), n, At(old(vars), n).Without(flag))
    {
      hide Put, Valid, FilledLists, EntryOf, EntryWith, Entry.Without;
      HasOwn();
      var d := EnsureOwn(n);
      WithoutFlag(d, flag);
      Change(n, d, FlagsWithout(d.flags, flag), OpsWithout(d.ops, flag), At(vars, n).Without(flag));
    }

    /** Taking a flag from a variable that has nothing changes nothing. */
    lemma NothingToTake(n: Name, flag: Flag)
      requires Valid()
      ensures At(vars, n) == EMPTY ==> Put(vars, n, At(vars, n).Without(flag)) == vars
    {
      WithoutNothing(flag);
      KeepsVisible(layers, n);
    }

    /** The same, but only for a variable that is visible and not empty. */
    method DropFlag(n: Name, flag: Flag)
      requires Valid()
      modifies this, layers[0], own
      ensures Valid() && OwnOrFresh()
      ensures vars == Put(old(vars), n, At(old(vars), n).Without(flag))
    {
      hide Put, Valid, Entry.Without;
      NothingToTake(n, flag);
      HasOwn();
      var found := Lookup(n);
      if found.Some? {
        RemoveFlag(n, flag);
      }
    }

    /** getVarFlag(n, keyword, False) or [] is a copy of the list; the copy is appended to. */
    method CopyAppended(n: Name, k: Keyword, op: Op) returns (l: OpList)
      requires Valid()
      ensures fresh(l) && l.items == At(vars, n).Ops(k) + [op]
    {
      hide Valid;
      var found := Lookup(n);
      if found.Some? && k in found.value.ops {
        l := new OpList(found.value.ops[k].items);
      } else {
        l := new OpList([]);
      }
      l.items := l.items + [op];
    }

    /** The longer list is stored; the one that was there is left alone. */
    method AddOp(n: Name, k: Keyword, op: Op)
      requires Valid()
      modifies this, layers[0], own
      ensures Valid() && OwnOrFresh()
      ensures var e := At(old(vars), n); vars == Put(old(vars), n, e.WithOps(k, e.Ops(k) + [op]))
    {
      hide Put, Valid;
      HasOwn();
      var l := CopyAppended(n, k, op);
      StoreOps(n, k, l);
    }

    /** self.dict[n][keyword] = l */
    method StoreOps(n: Name, k: Keyword, l: OpList)
      requires Valid() && l.items != []
      modifies this, layers[0], own
      ensures Valid() && OwnOrFresh()
      ensures vars == Put(old(vars), n, At(old(vars), n).WithOps(k, old(l.items)))
    {
      hide Put, Valid, FilledLists, EntryOf, EntryWith;
      HasOwn();
      var d := EnsureOwn(n);
      LongerList(d, k, l);
      Change(n, d, d.flags, d.ops[k := l], At(vars, n).WithOps(k, l.items));
    }

    /** The three `del` statements of setVar. */
    method ClearOps(n: Name) returns (d: VarDict)
      requires Valid()
      modifies this, layers[0], own
      ensures Valid() && OwnOrFresh()
      ensures n in layers[0].vars && layers[0].vars[n] == d && d in own && d.ops == map[]
      ensures d.flags == At(old(vars), n).flags
      ensures vars == Put(old(vars), n, Entry(At(old(vars), n).flags, [], [], []))
    {
      hide Put, Valid, FilledLists, EntryWith;
      HasOwn();
      d := EnsureOwn(n);
      NoOps(d.flags);
      FlagsKept(d);
      Change(n, d, d.flags, map[], Entry(d.flags, [], [], []));
    }

    /** self.dict[n]["_content"] = value, when the operation lists are gone. */
    method SetCleared(n: Name, d: VarDict, value: string)
      requires Valid() && n in layers[0].vars && layers[0].vars[n] == d && d.ops == map[]
      modifies this, d
      ensures Valid() && own == old(own)
      ensures vars == Put(old(vars), n, Entry(old(d.flags)[CONTENT := value], [], [], []))
    {
      hide Put, Valid, FilledLists, EntryWith;
      HasOwn();
      NoOps(d.flags[CONTENT := value]);
      Change(n, d, d.flags[CONTENT := value], map[], Entry(d.flags[CONTENT := value], [], [], []));
    }

    /** self.dict[n] = {} */
    method Erase(n: Name)
      requires Valid()
      modifies this, layers[0]
      ensures Valid() && OwnOrFresh()
      ensures vars == Put(old(vars), n, EMPTY)
      ensures n in layers[0].vars && layers[0].vars == old(layers[0].vars)[n := layers[0].vars[n]]
    {
      hide Put, Valid;
      HasOwn();
      var d := new VarDict();
      EmptyDict(d.flags, d.ops);
      Install(n, d, EMPTY);
    }
  }

  /** The override index: for each base name the list of [variable, override] pairs. */
  class OverrideIndex {
    var table: map<Name, PairList>

    ghost var lists: set<PairList>
    /** What the lists say. */
    ghost var pairs: Index

    ghost predicate Valid()
      reads this, lists
    {
      lists == table.Values && pairs == IndexOf(table)
    }

    constructor ()
      ensures Valid() && pairs == map[] && table == map[]
    {
      table, lists, pairs := map[], {}, map[];
    }

    /** copy.copy: a new dictionary with the same lists. */
    constructor Shallow(other: OverrideIndex)
      requires other.Valid()
      ensures Valid() && table == other.table && pairs == other.pairs
    {
      table, lists, pairs := other.table, other.lists, other.pairs;
    }

    lemma PairsAt(base: Name)
      requires Valid()
      ensures base in table <==> base in pairs
      ensures base in table ==> pairs[base] == table[base].items
    {
    }

    /** A list may be shared with another store: it is recreated, stored, and only then changed in place. */
    method RenewList(base: Name, items: seq<(Name, string)>)
      requires Valid()
      modifies this
      ensures Valid()
      ensures base in table && fresh(table[base]) && table == old(table)[base := table[base]]
      ensures pairs == old(pairs)[base := items]
    {
      var l := new PairList(if base in table then table[base].items else []);
      table := table[base := l];
      l.items := items;
      IndexUpdate(old(table), base, l);
      lists, pairs := table.Values, IndexOf(table);
    }

    /** One round of _setvar_update_overrides. */
    method FilePair(base: Name, name: Name, override: string)
      requires Valid()
      modifies this
      ensures Valid()
      ensures pairs == AddPair(old(pairs), base, name, override)
    {
      hide Valid;
      ghost var pairs0 := pairs;
      PairsAt(base);
      if base !in table {
        RenewList(base, []);
      }
      PairsAt(base);
      if (name, override) !in table[base].items {
        RenewList(base, table[base].items + [(name, override)]);
      }
      assert pairs == AddPair(pairs0, base, name, override);
    }

    /** One round of the loop of delVar. */
    method UnfilePair(base: Name, name: Name, override: string)
      requires Valid()
      modifies this
      ensures Valid()
      ensures pairs == RemovePair(old(pairs), base, name, override)
    {
      hide Valid;
      PairsAt(base);
      if base in table {
        RenewList(base, RemoveFirst(table[base].items, (name, override)));
      }
    }

    /** del self.overridedata[n] */
    method Drop(n: Name)
      requires n in table
      requires Valid()
      modifies this
      ensures Valid()
      ensures pairs == old(pairs) - {n}
    {
      table := table - {n};
      lists, pairs := table.Values, IndexOf(table);
    }

    /** _setvar_update_overrides. */
    method Update(name: Name)
      requires Valid()
      modifies this
      ensures Valid()
      ensures pairs == UpdateOverrides(old(pairs), name)
    {
      hide Valid, UpdateOverrides, AddSplits, AddPair, LooksLikeOverride, LastUnderscore;
      UpdateStarts(pairs, name);
      var i := LastUnderscore(name);
      if i >= 0 {
        FileSplits(name, i);
      } else if name != "" && LooksLikeOverride(name) {
        // rfind gave -1: one round, for there is no '_' in the base either
        FilePair(name[..|name| - 1], name, name);
      }
    }

    /** Its loop, from a split at a '_' on. */
    method FileSplits(name: Name, start: nat)
      requires start < |name|
      requires Valid()
      modifies this
      ensures Valid()
      ensures pairs == AddSplits(old(pairs), name, start)
    {
      hide *;
      ghost var wanted := AddSplits(pairs, name, start);
      var i: int := start;
      var override, base := name[i + 1..], name[..i];
      var going := true;
      while going && LooksLikeOverride(override)
        invariant Valid()
        invariant going ==> 0 <= i < |name| && override == name[i + 1..] && base == name[..i]
        invariant going ==> AddSplits(pairs, name, i) == wanted
        invariant !going ==> pairs == wanted
        decreases going, i
      {
        SplitStep(pairs, name, i);
        FilePair(base, name, override);
        going := false;
        if '_' in base {
          i := LastUnderscore(base);
          override, base := name[i + 1..], name[..i];
          going := |base| != 0;
        }
      }
      if going {
        SplitStop(pairs, name, i);
      }
    }

    /** What delVar takes out. */
    method Forget(name: Name)
      requires Valid()
      modifies this
      ensures Valid()
      ensures pairs == ForgetOverrides(old(pairs), name)
    {
      hide Valid, ForgetOverrides, RemoveSplits, LastUnderscore;
      ForgetStarts(pairs, name);
      PairsAt(name);
      ghost var pairs0 := pairs;
      if name in table {
        Drop(name);
      } else {
        assert pairs0 - {name} == pairs0;
      }
      if '_' in name {
        UnfileSplits(name, LastUnderscore(name));
      }
    }

    /** Its loop over the splits of the name. */
    method UnfileSplits(name: Name, start: nat)
      requires start < |name|
      requires Valid()
      modifies this
      ensures Valid()
      ensures pairs == RemoveSplits(old(pairs), name, start)
    {
      hide *;
      ghost var wanted := RemoveSplits(pairs, name, start);
      var i: int := start;
      var override, base := name[i + 1..], name[..i];
      var going := true;
      while going && IsLower(override)
        invariant Valid()
        invariant going ==> 0 <= i < |name| && override == name[i + 1..] && base == name[..i]
        invariant going ==> RemoveSplits(pairs, name, i) == wanted
        invariant !going ==> pairs == wanted
        decreases going, i
      {
        RemoveStep(pairs, name, i);
        UnfilePair(base, name, override);
        going := false;
        if '_' in base {
          i := LastUnderscore(base);
          override, base := name[i + 1..], name[..i];
          going := |base| != 0;
        }
      }
      if going {
        RemoveStop(pairs, name, i);
      }
    }
  }
}
