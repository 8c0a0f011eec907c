/** Which conditional variable replaces a variable: the loop over OVERRIDES. */
module OverrideChoice {
  import opened DataStore
  import opened Options
  import opened Sequences
  import opened Strings

  /** A dictionary in insertion order: from the (rest of an) override to the variable behind it. */
  type Active = seq<(string, Name)>

  predicate HasKey(active: Active, k: string) {
    exists i :: 0 <= i < |active| && active[i].0 == k
  }

  function Lookup(active: Active, k: string): (v: Name)
    requires HasKey(active, k)
    ensures (k, v) in active
  {
    if active[0].0 == k then active[0].1 else Lookup(active[1..], k)
  }

  /** active[k] = v */
  function SetKey(active: Active, k: string, v: Name): (r: Active)
    ensures forall p :: p in r ==> p in active || p == (k, v)
    ensures (k, v) in r
  {
    if active == [] then [(k, v)]
    else if active[0].0 == k then [(k, v)] + active[1..]
    else [active[0]] + SetKey(active[1..], k, v)
  }

  /** del active[k] */
  function DropKey(active: Active, k: string): (r: Active)
    ensures forall p :: p in r ==> p in active
  {
    if active == [] then []
    else if active[0].0 == k then active[1..]
    else [active[0]] + DropKey(active[1..], k)
  }

  function Keys(active: Active): (r: seq<string>)
    ensures |r| == |active|
    ensures forall i :: 0 <= i < |r| ==> r[i] == active[i].0
  {
    seq(|active|, i requires 0 <= i < |active| => active[i].0)
  }

  /** s.replace(p, "") */
  function ReplaceAll(s: string, p: string): (r: string)
    requires p != ""
    ensures |r| <= |s|
  {
    if |s| < |p| then s
    else if s[..|p|] == p then ReplaceAll(s[|p|..], p)
    else [s[0]] + ReplaceAll(s[1..], p)
  }

  predicate EndsWith(s: string, p: string) {
    |p| <= |s| && s[|s| - |p|..] == p
  }

  lemma {:induction false} ReplaceShortens(s: string, p: string)
    requires p != "" && EndsWith(s, p)
    ensures |ReplaceAll(s, p)| < |s|
  {
    if s[..|p|] != p {
      assert s[1..][|s[1..]| - |p|..] == p;
      ReplaceShortens(s[1..], p);
    }
  }

  /** Total length of the keys, plus their number. */
  ghost function Weight(active: Active): nat {
    if active == [] then 0 else |active[0].0| + 1 + Weight(active[1..])
  }

  lemma {:induction false} SetKeyWeight(active: Active, k: string, v: Name)
    ensures Weight(SetKey(active, k, v)) <= Weight(active) + |k| + 1
    ensures HasKey(active, k) ==> Weight(SetKey(active, k, v)) == Weight(active)
  {
    if active != [] {
      if active[0].0 == k {
        assert ([(k, v)] + active[1..])[1..] == active[1..];
      } else {
        SetKeyWeight(active[1..], k, v);
        assert ([active[0]] + SetKey(active[1..], k, v))[1..] == SetKey(active[1..], k, v);
        if HasKey(active, k) {
          var i :| 0 <= i < |active| && active[i].0 == k;
          assert active[1..][i - 1].0 == k;
        }
      }
    }
  }

  lemma {:induction false} DropKeyWeight(active: Active, k: string)
    ensures HasKey(active, k) ==> Weight(DropKey(active, k)) + |k| + 1 == Weight(active)
    ensures !HasKey(active, k) ==> DropKey(active, k) == active
  {
    if active != [] && active[0].0 != k {
      DropKeyWeight(active[1..], k);
      assert ([active[0]] + DropKey(active[1..], k))[1..] == DropKey(active[1..], k);
      if HasKey(active, k) {
        var i :| 0 <= i < |active| && active[i].0 == k;
        assert active[1..][i - 1].0 == k;
      }
      if HasKey(active[1..], k) {
        var i :| 0 <= i < |active[1..]| && active[1..][i].0 == k;
        assert active[i + 1].0 == k;
      }
    }
  }

  /** Loop state: what is still active, the last variable matched, and whether a key was shortened. */
  datatype Progress = Progress(active: Active, matched: Option<Name>, mod: bool)

  /** The innermost step, for override o and the key a of the snapshot. */
  function Step(p: Progress, o: string, a: string): Progress {
    if !HasKey(p.active, a) then p
    else if EndsWith(a, "_" + o) then
      Progress(SetKey(DropKey(p.active, a), ReplaceAll(a, "_" + o), Lookup(p.active, a)), p.matched, true)
    else if a == o then Progress(DropKey(p.active, a), Some(Lookup(p.active, a)), p.mod)
    else p
  }

  function StepAll(p: Progress, o: string, keys: seq<string>): Progress
    decreases |keys|
  {
    if keys == [] then p else StepAll(Step(p, o, keys[0]), o, keys[1..])
  }

  /** One pass over OVERRIDES. */
  function Pass(p: Progress, overrides: seq<string>): Progress
    decreases |overrides|
  {
    if overrides == [] then p
    else Pass(StepAll(p, overrides[0], Keys(p.active)), overrides[1..])
  }

  ghost predicate Lighter(p: Progress, q: Progress) {
    Weight(q.active) <= Weight(p.active) && (q.mod && !p.mod ==> Weight(q.active) < Weight(p.active)) && (p.mod ==> q.mod)
  }

  lemma StepLighter(p: Progress, o: string, a: string)
    ensures Lighter(p, Step(p, o, a))
  {
    if HasKey(p.active, a) {
      DropKeyWeight(p.active, a);
      if EndsWith(a, "_" + o) {
        ReplaceShortens(a, "_" + o);
        SetKeyWeight(DropKey(p.active, a), ReplaceAll(a, "_" + o), Lookup(p.active, a));
      }
    }
  }

  lemma {:induction false} StepAllLighter(p: Progress, o: string, keys: seq<string>)
    ensures Lighter(p, StepAll(p, o, keys))
    decreases |keys|
  {
    if keys != [] {
      StepLighter(p, o, keys[0]);
      StepAllLighter(Step(p, o, keys[0]), o, keys[1..]);
    }
  }

  lemma {:induction false} PassLighter(p: Progress, overrides: seq<string>)
    ensures Lighter(p, Pass(p, overrides))
    decreases |overrides|
  {
    if overrides != [] {
      StepAllLighter(p, overrides[0], Keys(p.active));
      PassLighter(StepAll(p, overrides[0], Keys(p.active)), overrides[1..]);
    }
  }

  /** The `while mod` loop: every pass that shortens a key makes the keys strictly lighter. */
  function Resolve(active: Active, overrides: seq<string>, matched: Option<Name>): Option<Name>
    decreases Weight(active)
  {
    var p := Pass(Progress(active, matched, false), overrides);
    PassLighter(Progress(active, matched, false), overrides);
    if p.mod then Resolve(p.active, overrides, p.matched) else p.matched
  }

  /** The dictionary of overrides in force. */
  function Activate(active: Active, pairs: seq<(Name, string)>, overrides: seq<string>): Active
    decreases |pairs|
  {
    if pairs == [] then active
    else
      var (r, o) := pairs[0];
      Activate(if InForce(o, overrides) then SetKey(active, o, r) else active, pairs[1..], overrides)
  }

  function Select(pairs: seq<(Name, string)>, overrides: seq<string>): Option<Name> {
    Resolve(Activate([], pairs, overrides), overrides, None)
  }

  /** The loops themselves. */
  method SelectVariable(pairs: seq<(Name, string)>, overrides: seq<string>) returns (matched: Option<Name>)
    ensures matched == Select(pairs, overrides)
  {
    var active: Active := [];
    for i := 0 to |pairs|
      invariant Activate(active, pairs[i..], overrides) == Activate([], pairs, overrides)
    {
      var (r, o) := pairs[i];
      assert pairs[i..][1..] == pairs[i + 1..];
      if InForce(o, overrides) {
        active := SetKey(active, o, r);
      }
    }
    matched := None;
    var mod := true;
    while mod
      invariant mod ==> Resolve(active, overrides, matched) == Select(pairs, overrides)
      invariant !mod ==> matched == Select(pairs, overrides)
      decreases mod, Weight(active)
    {
      ghost var start := Progress(active, matched, false);
      PassLighter(start, overrides);
      mod := false;
      for i := 0 to |overrides|
        invariant Pass(Progress(active, matched, mod), overrides[i..]) == Pass(start, overrides)
      {
        var o := overrides[i];
        var keys := Keys(active);
        ghost var before := Progress(active, matched, mod);
        assert overrides[i..][1..] == overrides[i + 1..];
        for k := 0 to |keys|
          invariant StepAll(Progress(active, matched, mod), o, keys[k..]) == StepAll(before, o, keys)
        {
          var a := keys[k];
          assert keys[k..][1..] == keys[k + 1..];
          if HasKey(active, a) {
            if EndsWith(a, "_" + o) {
              var t := Lookup(active, a);
              active := DropKey(active, a);
              active := SetKey(active, ReplaceAll(a, "_" + o), t);
              mod := true;
            } else if a == o {
              matched := Some(Lookup(active, a));
              active := DropKey(active, a);
            }
          }
        }
      }
    }
  }

  // ---- what the loop selects ----

  ghost predicate Behind(pairs: seq<(Name, string)>, active: Active) {
    forall e: (string, Name) :: e in active ==> exists p: (Name, string) :: p in pairs && p.0 == e.1
  }

  lemma {:induction false} StepAllBehind(pairs: seq<(Name, string)>, p: Progress, o: string, keys: seq<string>)
    requires Behind(pairs, p.active) && (p.matched.Some? ==> exists q: (Name, string) :: q in pairs && q.0 == p.matched.value)
    ensures var r := StepAll(p, o, keys);
      Behind(pairs, r.active) && (r.matched.Some? ==> exists q: (Name, string) :: q in pairs && q.0 == r.matched.value)
    decreases |keys|
  {
    if keys != [] {
      StepAllBehind(pairs, Step(p, o, keys[0]), o, keys[1..]);
    }
  }

  lemma {:induction false} PassBehind(pairs: seq<(Name, string)>, p: Progress, overrides: seq<string>)
    requires Behind(pairs, p.active) && (p.matched.Some? ==> exists q: (Name, string) :: q in pairs && q.0 == p.matched.value)
    ensures var r := Pass(p, overrides);
      Behind(pairs, r.active) && (r.matched.Some? ==> exists q: (Name, string) :: q in pairs && q.0 == r.matched.value)
    decreases |overrides|
  {
    if overrides != [] {
      StepAllBehind(pairs, p, overrides[0], Keys(p.active));
      PassBehind(pairs, StepAll(p, overrides[0], Keys(p.active)), overrides[1..]);
    }
  }

  lemma {:induction false} ResolveListed(pairs: seq<(Name, string)>, active: Active, overrides: seq<string>, matched: Option<Name>)
    requires Behind(pairs, active) && (matched.Some? ==> exists q: (Name, string) :: q in pairs && q.0 == matched.value)
    ensures var r := Resolve(active, overrides, matched);
      r.Some? ==> exists q: (Name, string) :: q in pairs && q.0 == r.value
    decreases Weight(active)
  {
    var p := Progress(active, matched, false);
    PassBehind(pairs, p, overrides);
    PassLighter(p, overrides);
    if Pass(p, overrides).mod {
      ResolveListed(pairs, Pass(p, overrides).active, overrides, Pass(p, overrides).matched);
    }
  }

  /** The loop only ever selects a variable of the index. */
  lemma SelectedListed(pairs: seq<(Name, string)>, overrides: seq<string>)
    ensures Select(pairs, overrides).Some? ==> exists q: (Name, string) :: q in pairs && q.0 == Select(pairs, overrides).value
  {
    ActivateMeaning([], pairs, overrides);
    ResolveListed(pairs, Activate([], pairs, overrides), overrides, None);
  }

  ghost predicate UniqueKeys(active: Active) {
    forall i, j :: 0 <= i < j < |active| ==> active[i].0 != active[j].0
  }

  ghost predicate PlainKeys(active: Active) {
    forall i :: 0 <= i < |active| ==> '_' !in active[i].0
  }

  lemma {:induction false} SetKeyMeaning(active: Active, k: string, v: Name)
    requires UniqueKeys(active)
    ensures UniqueKeys(SetKey(active, k, v))
    ensures forall k' :: HasKey(SetKey(active, k, v), k') <==> k' == k || HasKey(active, k')
    ensures forall p :: p in SetKey(active, k, v) <==> p == (k, v) || (p in active && p.0 != k)
  {
    if active == [] {
      assert SetKey(active, k, v)[0].0 == k;
    } else if active[0].0 == k {
      var r := [(k, v)] + active[1..];
      assert r[0].0 == k;
      assert active == [active[0]] + active[1..];
      forall k' ensures HasKey(r, k') <==> k' == k || HasKey(active, k') {
        if i :| 0 <= i < |active| && active[i].0 == k' { assert r[i].0 == k'; }
        if i :| 0 <= i < |r| && r[i].0 == k' { assert active[i].0 == k' ; }
      }
    } else {
      SetKeyMeaning(active[1..], k, v);
      var rest := SetKey(active[1..], k, v);
      assert active == [active[0]] + active[1..];
      forall k' ensures HasKey([active[0]] + rest, k') <==> k' == active[0].0 || HasKey(rest, k') {
        ConsKeys(active[0], rest, k');
      }
      forall k' ensures HasKey(active, k') <==> k' == active[0].0 || HasKey(active[1..], k') {
        ConsKeys(active[0], active[1..], k');
      }
      forall j | 0 <= j < |rest| ensures rest[j].0 != active[0].0 {
        assert rest[j] in rest;
      }
    }
  }

  lemma ConsKeys(head: (string, Name), rest: Active, k: string)
    ensures HasKey([head] + rest, k) <==> k == head.0 || HasKey(rest, k)
  {
    var r := [head] + rest;
    assert r[0].0 == head.0;
    if i :| 0 <= i < |rest| && rest[i].0 == k {
      assert r[i + 1].0 == k;
    }
    if i :| 0 <= i < |r| && r[i].0 == k && i > 0 {
      assert rest[i - 1].0 == k;
    }
  }

  lemma {:induction false} DropKeyMeaning(active: Active, k: string)
    requires UniqueKeys(active)
    ensures UniqueKeys(DropKey(active, k))
    ensures forall p :: p in DropKey(active, k) <==> p in active && p.0 != k
  {
    if active != [] {
      assert active == [active[0]] + active[1..];
      if active[0].0 == k {
        forall p | p in active[1..] ensures p.0 != k {}
      } else {
        DropKeyMeaning(active[1..], k);
        var rest := DropKey(active[1..], k);
        forall j | 0 <= j < |rest| ensures rest[j].0 != active[0].0 {
          assert rest[j] in rest;
        }
      }
    }
  }

  lemma LookupUnique(active: Active, p: (string, Name))
    requires UniqueKeys(active) && p in active
    ensures HasKey(active, p.0) && Lookup(active, p.0) == p.1
  {
    var i :| 0 <= i < |active| && active[i] == p;
    var v := Lookup(active, p.0);
    var j :| 0 <= j < |active| && active[j] == (p.0, v);
    assert i == j;
  }

  lemma PlainNotSuffix(a: string, o: string)
    requires '_' !in a
    ensures !EndsWith(a, "_" + o)
  {
    var p := "_" + o;
    if |p| <= |a| {
      assert a[|a| - |p|..][0] == a[|a| - |p|] != '_' == p[0];
    }
  }

  /** With plain keys, one override only takes its own entry. */
  lemma {:induction false} StepAllPlain(p: Progress, o: string, keys: seq<string>)
    requires UniqueKeys(p.active)
    requires forall k :: k in keys ==> '_' !in k
    ensures var q := StepAll(p, o, keys);
      && UniqueKeys(q.active) && q.mod == p.mod
      && (forall e :: e in q.active <==> e in p.active && !(e.0 == o && o in keys))
      && q.matched == (if o in keys && HasKey(p.active, o) then Some(Lookup(p.active, o)) else p.matched)
    decreases |keys|
  {
    if keys != [] {
      var a := keys[0];
      assert keys == [a] + keys[1..];
      PlainNotSuffix(a, o);
      DropKeyMeaning(p.active, a);
      StepAllPlain(Step(p, o, a), o, keys[1..]);
      if a == o && HasKey(p.active, o) {
        forall e | e in DropKey(p.active, o) ensures e.0 != o {}
        assert !HasKey(DropKey(p.active, o), o) by {
          forall i | 0 <= i < |DropKey(p.active, o)| ensures DropKey(p.active, o)[i].0 != o {
            assert DropKey(p.active, o)[i] in DropKey(p.active, o);
          }
        }
      }
    }
  }

  /** The entry of the last name in OVERRIDES that has one. */
  ghost function Chosen(active: Active, overrides: seq<string>): Option<Name> {
    if overrides == [] then None
    else if HasKey(active, overrides[|overrides| - 1]) then Some(Lookup(active, overrides[|overrides| - 1]))
    else Chosen(active, overrides[..|overrides| - 1])
  }

  /** One pass with plain keys takes the entries of the names in turn, each name at its first occurrence. */
  lemma {:induction false} PassPlain(active: Active, p: Progress, done: seq<string>, overrides: seq<string>)
    requires UniqueKeys(active) && PlainKeys(active) && UniqueKeys(p.active)
    requires NoDuplicates(done + overrides)
    requires forall e :: e in p.active <==> e in active && e.0 !in done
    requires p.matched == Chosen(active, done) && !p.mod
    ensures Pass(p, overrides).matched == Chosen(active, done + overrides)
    ensures !Pass(p, overrides).mod
    decreases |overrides|
  {
    hide HasKey, Lookup, StepAll, UniqueKeys;
    if overrides == [] {
      assert done + overrides == done;
    } else {
      var o, keys := overrides[0], Keys(p.active);
      forall k | k in keys ensures '_' !in k {
        var i :| 0 <= i < |keys| && keys[i] == k;
        assert p.active[i] in active;
        var j :| 0 <= j < |active| && active[j] == p.active[i];
      }
      StepAllPlain(p, o, keys);
      var done' := done + [o];
      assert (done + overrides)[|done|] == o;
      forall i | 0 <= i < |done| ensures done[i] != o {
        assert (done + overrides)[i] == done[i];
      }
      assert done' + overrides[1..] == done + overrides;
      assert done'[..|done'| - 1] == done;
      KeysAgree(active, p.active, done, o);
      forall e: (string, Name) ensures e.0 in done' <==> e.0 in done || e.0 == o {}
      PassPlain(active, StepAll(p, o, keys), done', overrides[1..]);
    }
  }

  lemma KeysAgree(active: Active, current: Active, done: seq<string>, o: string)
    requires UniqueKeys(active) && UniqueKeys(current)
    requires forall e :: e in current <==> e in active && e.0 !in done
    requires o !in done
    ensures HasKey(current, o) <==> HasKey(active, o)
    ensures HasKey(active, o) ==> Lookup(current, o) == Lookup(active, o)
    ensures HasKey(current, o) <==> o in Keys(current)
  {
    if HasKey(active, o) {
      var v := Lookup(active, o);
      LookupUnique(current, (o, v));
    }
    if HasKey(current, o) {
      var v := Lookup(current, o);
      LookupUnique(active, (o, v));
      var i :| 0 <= i < |current| && current[i].0 == o;
      assert Keys(current)[i] == o;
    }
  }

  lemma {:induction false} ActivateMeaning(active: Active, pairs: seq<(Name, string)>, overrides: seq<string>)
    requires UniqueKeys(active)
    ensures UniqueKeys(Activate(active, pairs, overrides))
    ensures forall e :: e in Activate(active, pairs, overrides) ==>
              e in active || ((e.1, e.0) in pairs && InForce(e.0, overrides))
    ensures forall k :: HasKey(active, k) ==> HasKey(Activate(active, pairs, overrides), k)
    ensures forall p: (Name, string) :: p in pairs && InForce(p.1, overrides) ==> HasKey(Activate(active, pairs, overrides), p.1)
    decreases |pairs|
  {
    if pairs != [] {
      var (r, o) := pairs[0];
      assert pairs == [pairs[0]] + pairs[1..];
      SetKeyMeaning(active, o, r);
      ActivateMeaning(if InForce(o, overrides) then SetKey(active, o, r) else active, pairs[1..], overrides);
    }
  }

  lemma {:induction false} ChosenIsLast(active: Active, overrides: seq<string>)
    requires UniqueKeys(active)
    ensures Chosen(active, overrides).None? ==> forall o :: o in overrides ==> !HasKey(active, o)
    ensures Chosen(active, overrides).Some? ==> exists i ::
              && 0 <= i < |overrides|
              && (overrides[i], Chosen(active, overrides).value) in active
              && forall j :: i < j < |overrides| ==> !HasKey(active, overrides[j])
  {
    if overrides != [] {
      var n := |overrides| - 1;
      assert overrides == overrides[..n] + [overrides[n]];
      if !HasKey(active, overrides[n]) {
        ChosenIsLast(active, overrides[..n]);
        if Chosen(active, overrides).Some? {
          var i :| 0 <= i < n && (overrides[..n][i], Chosen(active, overrides).value) in active
                   && forall j :: i < j < n ==> !HasKey(active, overrides[..n][j]);
          forall j | i < j < |overrides| ensures !HasKey(active, overrides[j]) {
            assert j < n ==> overrides[..n][j] == overrides[j];
          }
          assert overrides[..n][i] == overrides[i];
        }
      }
    }
  }

  /** When no override in force has a '_' and OVERRIDES has no repetition, the variable selected for a
      base is base_o for the last name o in OVERRIDES for which there is one. */
  lemma SelectsLastOverride(base: Name, pairs: seq<(Name, string)>, overrides: seq<string>)
    requires forall p: (Name, string) :: p in pairs ==> p.0 == base + "_" + p.1
    requires forall p: (Name, string) :: p in pairs && InForce(p.1, overrides) ==> '_' !in p.1
    requires NoDuplicates(overrides)
    ensures Select(pairs, overrides).None? <==> forall o :: o in overrides ==> (base + "_" + o, o) !in pairs
    ensures Select(pairs, overrides).Some? ==> exists i ::
              && 0 <= i < |overrides|
              && Select(pairs, overrides) == Some(base + "_" + overrides[i])
              && (base + "_" + overrides[i], overrides[i]) in pairs
              && forall j :: i < j < |overrides| ==> (base + "_" + overrides[j], overrides[j]) !in pairs
  {
    var active := Activate([], pairs, overrides);
    ActivateMeaning([], pairs, overrides);
    forall i | 0 <= i < |active| ensures '_' !in active[i].0 {
      assert active[i] in active;
    }
    assert [] + overrides == overrides;
    PassPlain(active, Progress(active, None, false), [], overrides);
    assert Select(pairs, overrides) == Chosen(active, overrides);
    ChosenIsLast(active, overrides);
    forall o | o in overrides ensures HasKey(active, o) <==> (base + "_" + o, o) in pairs {
      if HasKey(active, o) {
        var v := Lookup(active, o);
        assert (o, v) in active;
      }
    }
  }

  /** A single key that no name matches or shortens stays as it is. */
  lemma {:induction false} PassQuiet(p: Progress, a: string, v: Name, overrides: seq<string>)
    requires p.active == [(a, v)]
    requires forall o :: o in overrides ==> !EndsWith(a, "_" + o) && a != o
    ensures Pass(p, overrides) == p
    decreases |overrides|
  {
    if overrides != [] {
      var keys := Keys(p.active);
      assert keys == [a] && keys[1..] == [];
      assert overrides[0] in overrides;
      assert StepAll(p, overrides[0], keys) == StepAll(Step(p, overrides[0], a), overrides[0], []) == p;
      PassQuiet(p, a, v, overrides[1..]);
    }
  }

  // ---- overrides with several parts ----

  /** The parts behind a first one, each with its '_'. */
  function Tail(parts: seq<string>): string
    decreases |parts|
  {
    if parts == [] then "" else "_" + parts[0] + Tail(parts[1..])
  }

  ghost predicate AllPlain(parts: seq<string>) {
    forall p :: p in parts ==> '_' !in p
  }

  /** Every part of the key is in OVERRIDES. */
  ghost predicate Named(overrides: seq<string>, a: string) {
    forall part :: part in Split(a, '_') ==> part in overrides
  }

  /** No name in OVERRIDES begins with another one. */
  ghost predicate PrefixFree(overrides: seq<string>) {
    forall o, p :: o in overrides && p in overrides && StartsWith(p, o) ==> o == p
  }

  lemma {:induction false} SplitTail(first: string, rest: seq<string>)
    requires '_' !in first && AllPlain(rest)
    ensures Split(first + Tail(rest), '_') == [first] + rest
    decreases |rest|
  {
    if rest == [] {
      assert first + Tail(rest) == first;
      SplitWhole(first, '_');
    } else {
      assert rest == [rest[0]] + rest[1..];
      assert first + Tail(rest) == first + "_" + (rest[0] + Tail(rest[1..]));
      SplitAppend(first, rest[0] + Tail(rest[1..]), '_');
      SplitWhole(first, '_');
      SplitTail(rest[0], rest[1..]);
    }
  }

  lemma {:induction false} JoinIsTail(parts: seq<string>)
    requires parts != []
    ensures Join(parts, '_') == parts[0] + Tail(parts[1..])
  {
    if |parts| > 1 {
      JoinIsTail(parts[1..]);
      assert parts[1..][0] == parts[1] && parts[1..][1..] == parts[2..];
      assert parts[0] + "_" + (parts[1] + Tail(parts[2..])) == parts[0] + ("_" + parts[1] + Tail(parts[2..]));
    }
  }

  /** A key is its first part and the tail of the others. */
  lemma KeyParts(a: string)
    ensures var parts := Split(a, '_');
      a == parts[0] + Tail(parts[1..]) && AllPlain(parts) && '_' !in parts[0] && AllPlain(parts[1..])
  {
    JoinSplit(a, '_');
    JoinIsTail(Split(a, '_'));
    PartsClean(a, '_');
    var parts := Split(a, '_');
    assert parts[0] in parts;
  }

  function Others(parts: seq<string>, o: string): seq<string> {
    if parts == [] then []
    else (if parts[0] == o then [] else [parts[0]]) + Others(parts[1..], o)
  }

  lemma {:induction false} OthersIn(parts: seq<string>, o: string)
    ensures forall p :: p in Others(parts, o) ==> p in parts
    ensures o !in parts ==> Others(parts, o) == parts
  {
    if parts != [] {
      OthersIn(parts[1..], o);
      assert parts == [parts[0]] + parts[1..];
    }
  }

  lemma {:induction false} TailLong(parts: seq<string>, o: string)
    requires o in parts
    ensures |Tail(parts)| >= |o| + 1
  {
    if parts[0] != o {
      TailLong(parts[1..], o);
    }
  }

  /** "_o" is found at the '_' before a part only if the part begins with o. */
  lemma FoundAtPart(q: string, rest: seq<string>, o: string)
    requires '_' !in o && '_' !in q
    ensures StartsWith("_" + q + Tail(rest), "_" + o) <==> StartsWith(q, o)
  {
    StartsCons('_', q + Tail(rest), o);
    assert "_" + q + Tail(rest) == ['_'] + (q + Tail(rest)) && "_" + o == ['_'] + o;
    var s := q + Tail(rest);
    if |o| <= |q| {
      assert s[..|o|] == q[..|o|];
    } else if |o| <= |s| {
      assert Tail(rest)[0] == '_' && s[|q|] == '_';
      assert s[..|o|][|q|] == '_' != o[|q|];
    }
  }

  lemma StartsCons(c: char, s: string, o: string)
    ensures StartsWith([c] + s, [c] + o) <==> StartsWith(s, o)
  {
    var t, p := [c] + s, [c] + o;
    if |o| <= |s| {
      assert t[..|p|] == [c] + s[..|o|];
      assert ([c] + s[..|o|])[1..] == s[..|o|] && p[1..] == o;
    }
  }

  lemma StartsAppend(f: string, x: string)
    ensures StartsWith(f + x, f) && (f + x)[|f|..] == x
  {
  }

  lemma ReplaceHit(s: string, p: string)
    requires p != "" && StartsWith(s, p)
    ensures ReplaceAll(s, p) == ReplaceAll(s[|p|..], p)
  {
  }

  lemma ReplaceMiss(s: string, p: string)
    requires p != "" && s != "" && !StartsWith(s, p)
    ensures ReplaceAll(s, p) == [s[0]] + ReplaceAll(s[1..], p)
  {
    ReplaceShort(s[1..], p);
  }

  lemma ReplaceShort(s: string, p: string)
    requires p != ""
    ensures |s| < |p| ==> ReplaceAll(s, p) == s
  {
  }

  /** Characters of a word without '_' are passed over. */
  lemma ReplaceInWord(w: string, t: string, o: string)
    requires w != "" && '_' !in w
    ensures ReplaceAll(w + t, "_" + o) == [w[0]] + ReplaceAll(w[1..] + t, "_" + o)
  {
    var s, f := w + t, "_" + o;
    assert s[0] == w[0] != '_' == f[0];
    assert |f| <= |s| ==> s[..|f|][0] == s[0];
    ReplaceMiss(s, f);
    assert s[1..] == w[1..] + t;
  }

  lemma ReplaceFront(f: string, t: string)
    requires f != ""
    ensures ReplaceAll(f + t, f) == ReplaceAll(t, f)
  {
    StartsAppend(f, t);
    ReplaceHit(f + t, f);
  }

  lemma ReplaceOtherPart(q: string, rest: seq<string>, o: string)
    requires '_' !in o && '_' !in q && !StartsWith(q, o)
    ensures ReplaceAll("_" + q + Tail(rest), "_" + o) == "_" + ReplaceAll(q + Tail(rest), "_" + o)
  {
    var s := "_" + q + Tail(rest);
    FoundAtPart(q, rest, o);
    ReplaceMiss(s, "_" + o);
    assert s[1..] == q + Tail(rest);
  }

  lemma FirstJoined(w: string, t: string)
    requires w != ""
    ensures [w[0]] + (w[1..] + t) == w + t
  {
  }

  lemma Regroup(a: string, b: string, c: string)
    ensures a + (b + c) == a + b + c
  {
  }

  /** When o begins no other part, str.replace takes out exactly the parts that are o. */
  lemma {:induction false} ReplaceParts(w: string, rest: seq<string>, o: string)
    requires '_' !in w && '_' !in o && AllPlain(rest)
    requires forall q :: q in rest && StartsWith(q, o) ==> q == o
    ensures ReplaceAll(w + Tail(rest), "_" + o) == w + Tail(Others(rest, o))
    decreases |rest|, |w|
  {
    hide ReplaceAll, StartsWith;
    if w != "" {
      ReplaceInWord(w, Tail(rest), o);
      ReplaceParts(w[1..], rest, o);
      FirstJoined(w, Tail(Others(rest, o)));
    } else if rest == [] {
      assert w + Tail(rest) == "" && w + Tail(Others(rest, o)) == "";
      ReplaceShort("", "_" + o);
    } else {
      var q, more := rest[0], rest[1..];
      assert rest == [q] + more && w + Tail(rest) == "_" + q + Tail(more);
      if q == o {
        ReplaceFront("_" + o, Tail(more));
        ReplaceParts("", more, o);
        assert "" + Tail(more) == Tail(more);
        assert Others(rest, o) == [] + Others(more, o) == Others(more, o);
      } else {
        ReplaceOtherPart(q, more, o);
        ReplaceParts(q, more, o);
        TailCons(q, Others(more, o));
        Regroup("_", q, Tail(Others(more, o)));
      }
    }
  }

  lemma TailCons(q: string, rest: seq<string>)
    ensures Tail([q] + rest) == "_" + q + Tail(rest)
  {
    assert ([q] + rest)[1..] == rest;
  }

  /** Shortening a key whose parts are all in OVERRIDES leaves such a key. */
  lemma ShortenedNamed(overrides: seq<string>, a: string, o: string)
    requires PrefixFree(overrides) && AllPlain(overrides) && Named(overrides, a) && o in overrides
    ensures Named(overrides, ReplaceAll(a, "_" + o))
  {
    var parts := Split(a, '_');
    KeyParts(a);
    assert parts == [parts[0]] + parts[1..];
    ReplaceParts(parts[0], parts[1..], o);
    OthersIn(parts[1..], o);
    SplitTail(parts[0], Others(parts[1..], o));
  }

  lemma {:induction false} TailEnds(parts: seq<string>)
    requires parts != []
    ensures EndsWith(Tail(parts), "_" + parts[|parts| - 1])
  {
    var t, p := Tail(parts), "_" + parts[|parts| - 1];
    if |parts| == 1 {
      assert parts[1..] == [] && Tail(parts[1..]) == "";
      assert t == p + "";
      assert t[|t| - |p|..] == t == p;
    } else {
      TailEnds(parts[1..]);
      assert t == ("_" + parts[0]) + Tail(parts[1..]);
      assert t[|t| - |p|..] == Tail(parts[1..])[|Tail(parts[1..])| - |p|..];
    }
  }

  /** The key is neither taken nor shortened by o. */
  predicate Still(a: string, o: string) {
    a != o && !EndsWith(a, "_" + o)
  }

  /** A key whose parts are all in OVERRIDES is always taken or shortened. */
  lemma NamedMoves(overrides: seq<string>, a: string)
    requires Named(overrides, a)
    ensures exists o :: o in overrides && !Still(a, o)
  {
    var parts := Split(a, '_');
    KeyParts(a);
    var last := parts[|parts| - 1];
    assert last in overrides;
    if |parts| == 1 {
      assert Tail(parts[1..]) == "";
      assert a == last;
    } else {
      assert parts[1..][|parts| - 2] == last;
      EndsBehind(parts[0], parts[1..]);
    }
    assert !Still(a, last);
  }

  /** What the loop keeps when an override is in force: an entry, until one has been taken. */
  ghost predicate Promising(overrides: seq<string>, p: Progress) {
    && UniqueKeys(p.active)
    && (forall e :: e in p.active ==> Named(overrides, e.0))
    && (p.active != [] || p.matched.Some?)
  }

  lemma StepPromising(overrides: seq<string>, p: Progress, o: string, a: string)
    requires PrefixFree(overrides) && AllPlain(overrides) && o in overrides && Promising(overrides, p)
    ensures Promising(overrides, Step(p, o, a))
  {
    if HasKey(p.active, a) {
      DropKeyMeaning(p.active, a);
      var e := (a, Lookup(p.active, a));
      if EndsWith(a, "_" + o) {
        ShortenedNamed(overrides, a, o);
        SetKeyMeaning(DropKey(p.active, a), ReplaceAll(a, "_" + o), e.1);
      }
    }
  }

  lemma {:induction false} StepAllPromising(overrides: seq<string>, p: Progress, o: string, keys: seq<string>)
    requires PrefixFree(overrides) && AllPlain(overrides) && o in overrides && Promising(overrides, p)
    ensures Promising(overrides, StepAll(p, o, keys))
    decreases |keys|
  {
    if keys != [] {
      StepPromising(overrides, p, o, keys[0]);
      StepAllPromising(overrides, Step(p, o, keys[0]), o, keys[1..]);
    }
  }

  lemma {:induction false} PassPromising(all: seq<string>, p: Progress, overrides: seq<string>)
    requires PrefixFree(all) && AllPlain(all) && Promising(all, p)
    requires forall o :: o in overrides ==> o in all
    ensures Promising(all, Pass(p, overrides))
    decreases |overrides|
  {
    if overrides != [] {
      StepAllPromising(all, p, overrides[0], Keys(p.active));
      PassPromising(all, StepAll(p, overrides[0], Keys(p.active)), overrides[1..]);
    }
  }

  lemma {:induction false} StepAllStill(p: Progress, o: string, keys: seq<string>)
    requires UniqueKeys(p.active) && !StepAll(p, o, keys).mod
    ensures UniqueKeys(StepAll(p, o, keys).active)
    ensures forall e :: e in StepAll(p, o, keys).active ==> e in p.active && (e.0 in keys ==> Still(e.0, o))
    decreases |keys|
  {
    if keys != [] {
      var a, q := keys[0], Step(p, o, keys[0]);
      StepAllLighter(q, o, keys[1..]);
      assert keys == [a] + keys[1..] && !q.mod;
      DropKeyMeaning(p.active, a);
      StepAllStill(q, o, keys[1..]);
      forall e | e in StepAll(p, o, keys).active ensures e in p.active && (e.0 in keys ==> Still(e.0, o)) {
        if e.0 == a {
          LookupUnique(p.active, e);
        }
      }
    }
  }

  lemma KeysHold(active: Active)
    ensures forall e :: e in active ==> e.0 in Keys(active)
  {
    forall e | e in active ensures e.0 in Keys(active) {
      var i :| 0 <= i < |active| && active[i] == e;
      assert Keys(active)[i] == e.0;
    }
  }

  ghost predicate StillFor(a: string, overrides: seq<string>) {
    forall o :: o in overrides ==> Still(a, o)
  }

  /** A pass that shortens nothing leaves only keys that no name touches. */
  lemma {:induction false} PassStill(p: Progress, overrides: seq<string>)
    requires UniqueKeys(p.active) && !Pass(p, overrides).mod
    ensures forall e :: e in Pass(p, overrides).active ==> e in p.active && StillFor(e.0, overrides)
    decreases |overrides|
  {
    if overrides != [] {
      var keys := Keys(p.active);
      var q := StepAll(p, overrides[0], keys);
      PassLighter(q, overrides[1..]);
      KeysHold(p.active);
      StepAllStill(p, overrides[0], keys);
      PassStill(q, overrides[1..]);
      assert overrides == [overrides[0]] + overrides[1..];
      var r := Pass(q, overrides[1..]);
      assert r == Pass(p, overrides);
      forall e | e in r.active ensures e in p.active && StillFor(e.0, overrides) {
        assert e in q.active && e in p.active && e.0 in keys && Still(e.0, overrides[0]);
      }
    }
  }

  lemma {:induction false} ResolvePromising(active: Active, overrides: seq<string>, matched: Option<Name>)
    requires PrefixFree(overrides) && AllPlain(overrides) && Promising(overrides, Progress(active, matched, false))
    ensures Resolve(active, overrides, matched).Some?
    decreases Weight(active)
  {
    var p := Progress(active, matched, false);
    PassLighter(p, overrides);
    PassPromising(overrides, p, overrides);
    var q := Pass(p, overrides);
    if q.mod {
      ResolvePromising(q.active, overrides, q.matched);
    } else {
      PassStill(p, overrides);
      if q.active != [] {
        NamedMoves(overrides, q.active[0].0);
      }
    }
  }

  /** Without '_' in OVERRIDES, an override is in force exactly when all its parts are in OVERRIDES. */
  lemma InForceIsNamed(o: string, overrides: seq<string>)
    requires AllPlain(overrides)
    ensures InForce(o, overrides) <==> Named(overrides, o)
  {
    if '_' !in o {
      SplitWhole(o, '_');
      assert Split(o, '_')[0] in Split(o, '_');
    }
  }

  lemma {:induction false} NothingActive(overrides: seq<string>, p: Progress)
    requires p.active == []
    ensures Pass(p, overrides) == p
    decreases |overrides|
  {
    if overrides != [] {
      assert Keys(p.active) == [];
      NothingActive(overrides[1..], p);
    }
  }

  /** When no name in OVERRIDES begins with another one, a variable is selected exactly when one of the
      overrides is in force. */
  lemma SelectsWhenInForce(pairs: seq<(Name, string)>, overrides: seq<string>)
    requires AllPlain(overrides) && PrefixFree(overrides)
    ensures Select(pairs, overrides).Some? <==> exists p: (Name, string) :: p in pairs && InForce(p.1, overrides)
  {
    var active := Activate([], pairs, overrides);
    ActivateMeaning([], pairs, overrides);
    if active == [] {
      NothingActive(overrides, Progress(active, None, false));
    } else {
      var e := active[0];
      assert (e.1, e.0) in pairs && InForce((e.1, e.0).1, overrides);
      forall e | e in active ensures Named(overrides, e.0) {
        InForceIsNamed(e.0, overrides);
      }
      ResolvePromising(active, overrides, None);
    }
  }

  // ---- one name beginning with another ----

  function Repeat(s: string, k: nat): string {
    if k == 0 then "" else s + Repeat(s, k - 1)
  }

  function Copies(p: string, k: nat, last: string): seq<string> {
    if k == 0 then [last] else [p] + Copies(p, k - 1, last)
  }

  lemma {:induction false} CopiesIn(p: string, k: nat, last: string)
    ensures forall q :: q in Copies(p, k, last) ==> q == p || q == last
    ensures last in Copies(p, k, last)
    ensures Copies(p, k, last) != [] && Copies(p, k, last)[|Copies(p, k, last)| - 1] == last
  {
    if k > 0 {
      CopiesIn(p, k - 1, last);
    }
  }

  lemma {:induction false} RepeatLong(s: string, k: nat)
    requires s != "" && '_' !in s
    ensures |Repeat(s, k)| >= k && '_' !in Repeat(s, k)
  {
    if k > 0 {
      RepeatLong(s, k - 1);
    }
  }

  /** str.replace cuts o out of every o + c, and what is left runs together. */
  lemma {:induction false} ReplaceCuts(w: string, k: nat, o: string, c: string)
    requires '_' !in w && '_' !in c && '_' !in o
    ensures ReplaceAll(w + Tail(Copies(o + c, k, o)), "_" + o) == w + Repeat(c, k)
    decreases k, |w|
  {
    hide ReplaceAll;
    if w != "" {
      ReplaceInWord(w, Tail(Copies(o + c, k, o)), o);
      ReplaceCuts(w[1..], k, o, c);
      FirstJoined(w, Repeat(c, k));
    } else if k == 0 {
      CutLast(o);
      assert w + Tail([o]) == Tail([o]) && w + Repeat(c, k) == "";
    } else {
      var more := Copies(o + c, k - 1, o);
      CutOne(o, c, Tail(more));
      TailCons(o + c, more);
      assert w + Tail([o + c] + more) == "_" + (o + c) + Tail(more);
      ReplaceCuts(c, k - 1, o, c);
      assert w + Repeat(c, k) == c + Repeat(c, k - 1);
    }
  }

  lemma CutLast(o: string)
    ensures ReplaceAll(Tail([o]), "_" + o) == ""
  {
    var f := "_" + o;
    assert [o][1..] == [] && Tail([o]) == f + "";
    ReplaceFront(f, "");
    ReplaceShort("", f);
  }

  lemma CutOne(o: string, c: string, more: string)
    ensures ReplaceAll("_" + (o + c) + more, "_" + o) == ReplaceAll(c + more, "_" + o)
  {
    hide *;
    CutRegroup(o, c, more);
    ReplaceFront("_" + o, c + more);
  }

  lemma CutRegroup(o: string, c: string, more: string)
    ensures "_" + (o + c) + more == ("_" + o) + (c + more)
  {
  }

  function Longest(overrides: seq<string>): (n: nat)
    ensures forall o :: o in overrides ==> |o| <= n
  {
    if overrides == [] then 0
    else
      var n := Longest(overrides[1..]);
      assert overrides == [overrides[0]] + overrides[1..];
      if |overrides[0]| > n then |overrides[0]| else n
  }

  /** Only the last part can be cut off the end. */
  lemma EndsWithLast(a: string, rest: seq<string>, o: string)
    requires rest != [] && AllPlain(rest) && '_' !in o
    requires EndsWith(a + Tail(rest), "_" + o)
    ensures o == rest[|rest| - 1]
  {
    var s, last := a + Tail(rest), rest[|rest| - 1];
    EndsBehind(a, rest);
    assert last in rest;
    hide *;
    SuffixAt(s, o);
    SuffixAt(s, last);
  }

  lemma EndsBehind(a: string, rest: seq<string>)
    requires rest != []
    ensures EndsWith(a + Tail(rest), "_" + rest[|rest| - 1])
  {
    TailEnds(rest);
    SuffixBehind(a, Tail(rest), "_" + rest[|rest| - 1]);
  }

  lemma SuffixBehind(a: string, t: string, p: string)
    requires EndsWith(t, p)
    ensures EndsWith(a + t, p)
  {
    assert (a + t)[|a + t| - |p|..] == t[|t| - |p|..];
  }

  /** The part behind the last '_' is the only one a string ends with. */
  lemma SuffixAt(s: string, o: string)
    requires '_' !in o && EndsWith(s, "_" + o)
    ensures 0 <= LastUnderscore(s) && o == s[LastUnderscore(s) + 1..]
  {
    var m, i := |s| - |o| - 1, LastUnderscore(s);
    var p := "_" + o;
    assert s[m..] == p;
    assert s[m] == p[0];
    assert s[m + 1..] == p[1..] == o;
    forall j | m < j < |s| ensures s[j] != '_' {
      assert s[m + 1..][j - m - 1] == s[j];
    }
    forall j | i < j < |s| && 0 <= i ensures s[j] != '_' {
      assert s[i + 1..][j - i - 1] == s[j];
    }
    assert s[m] in s;
  }

  /** The key that is lost: p and as many copies of it that what is left is longer than every name. */
  function LostKey(overrides: seq<string>, o: string, p: string): string {
    p + Tail(Copies(p, Longest(overrides), o))
  }

  /** When o begins another name p, the override p_p_..._p_o is in force, and its variable is not selected. */
  lemma PrefixOverrideLost(overrides: seq<string>, o: string, p: string, v: Name)
    requires AllPlain(overrides) && o in overrides && p in overrides && StartsWith(p, o) && o != p
    ensures InForce(LostKey(overrides, o, p), overrides)
    ensures Select([(v, LostKey(overrides, o, p))], overrides) == None
  {
    LostKeyInForce(overrides, o, p);
    LostKeyMoves(overrides, o, p);
    var left := p + Repeat(p[|o|..], Longest(overrides));
    assert p == o + p[|o|..];
    ReplaceCuts(p, Longest(overrides), o, p[|o|..]);
    forall q | q in overrides ensures Still(left, q) {
      LeftOverStill(overrides, o, p, q);
    }
    hide *;
    OneKeyLost(overrides, LostKey(overrides, o, p), o, left, v);
  }

  lemma LostKeyInForce(overrides: seq<string>, o: string, p: string)
    requires AllPlain(overrides) && o in overrides && p in overrides
    ensures InForce(LostKey(overrides, o, p), overrides)
  {
    var n := Longest(overrides);
    CopiesIn(p, n, o);
    SplitTail(p, Copies(p, n, o));
    InForceIsNamed(LostKey(overrides, o, p), overrides);
  }

  /** Only o moves the key. */
  lemma LostKeyMoves(overrides: seq<string>, o: string, p: string)
    requires AllPlain(overrides) && o in overrides && p in overrides
    ensures EndsWith(LostKey(overrides, o, p), "_" + o)
    ensures forall q :: q in overrides && q != o ==> Still(LostKey(overrides, o, p), q)
  {
    var k, rest := LostKey(overrides, o, p), Copies(p, Longest(overrides), o);
    CopiesIn(p, Longest(overrides), o);
    EndsBehind(p, rest);
    assert '_' in k by {
      assert Tail(rest)[0] == '_';
      assert k[|p|] == '_';
    }
    hide Tail, EndsWith, LostKey;
    forall q | q in overrides && q != o ensures Still(k, q) {
      NotElsewhere(k, p, rest, q);
    }
  }

  lemma NotElsewhere(k: string, p: string, rest: seq<string>, q: string)
    requires rest != [] && AllPlain(rest) && '_' !in q && k == p + Tail(rest) && '_' in k
    requires q != rest[|rest| - 1]
    ensures Still(k, q)
  {
    if EndsWith(k, "_" + q) {
      EndsWithLast(p, rest, q);
    }
  }

  /** What is left is no name and has no '_'. */
  lemma LeftOverStill(overrides: seq<string>, o: string, p: string, q: string)
    requires AllPlain(overrides) && o in overrides && p in overrides && StartsWith(p, o) && o != p && q in overrides
    ensures Still(p + Repeat(p[|o|..], Longest(overrides)), q)
  {
    var left := p + Repeat(p[|o|..], Longest(overrides));
    assert p == o + p[|o|..];
    RepeatLong(p[|o|..], Longest(overrides));
    assert |left| > |q|;
    PlainNotSuffix(left, q);
  }

  lemma OneKeyLost(overrides: seq<string>, k: string, o: string, left: string, v: Name)
    requires InForce(k, overrides) && o in overrides
    requires EndsWith(k, "_" + o) && ReplaceAll(k, "_" + o) == left
    requires forall q :: q in overrides && q != o ==> Still(k, q)
    requires forall q :: q in overrides ==> Still(left, q)
    ensures Select([(v, k)], overrides) == None
  {
    var pairs, active: Active := [(v, k)], [(k, v)];
    assert Activate([], pairs, overrides) == active by {
      assert pairs[1..] == [] && SetKey([], k, v) == active;
      assert Activate(active, [], overrides) == active;
    }
    var p := Progress(active, None, false);
    OnePassShortens(overrides, p, k, o, left, v);
    var q := Progress([(left, v)], None, false);
    PassQuiet(q, left, v, overrides);
    hide Pass, Activate, InForce, EndsWith, ReplaceAll;
    assert Resolve([(left, v)], overrides, None) == None;
  }

  lemma {:induction false} OnePassShortens(overrides: seq<string>, p: Progress, k: string, o: string, left: string, v: Name)
    requires p.active == [(k, v)] && o in overrides
    requires EndsWith(k, "_" + o) && ReplaceAll(k, "_" + o) == left
    requires forall q :: q in overrides && q != o ==> Still(k, q)
    requires forall q :: q in overrides ==> Still(left, q)
    ensures Pass(p, overrides) == Progress([(left, v)], p.matched, true)
    decreases |overrides|
  {
    var q, keys := overrides[0], Keys(p.active);
    assert keys == [k] && keys[1..] == [];
    assert overrides == [q] + overrides[1..];
    assert StepAll(p, q, keys) == StepAll(Step(p, q, k), q, []) == Step(p, q, k);
    if q == o {
      assert DropKey(p.active, k) == [] && SetKey([], left, v) == [(left, v)];
      forall x | x in overrides[1..] ensures Still(left, x) {
        assert x in overrides;
      }
      PassQuiet(Step(p, q, k), left, v, overrides[1..]);
    } else {
      assert Still(k, q);
      OnePassShortens(overrides[1..], p, k, o, left, v);
    }
  }

  /** So the loop finds a variable whenever an override is in force, for every list of pairs, if and only
      if no name in OVERRIDES begins with another one. */
  lemma SelectsExactlyWhenPrefixFree(overrides: seq<string>)
    requires AllPlain(overrides)
    ensures PrefixFree(overrides) <==>
            forall pairs: seq<(Name, string)> ::
              Select(pairs, overrides).Some? <==> exists p: (Name, string) :: p in pairs && InForce(p.1, overrides)
  {
    if PrefixFree(overrides) {
      forall pairs: seq<(Name, string)>
        ensures Select(pairs, overrides).Some? <==> exists p: (Name, string) :: p in pairs && InForce(p.1, overrides)
      {
        SelectsWhenInForce(pairs, overrides);
      }
    } else {
      var o, p :| o in overrides && p in overrides && StartsWith(p, o) && o != p;
      PrefixOverrideLost(overrides, o, p, "A");
      var pairs := [("A", LostKey(overrides, o, p))];
      assert pairs[0] in pairs && InForce(pairs[0].1, overrides);
    }
  }
}
