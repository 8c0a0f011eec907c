/** What the expansion cache is keyed by, and what it may hold. */
module ExpandCache {
  import opened DataStore
  import opened Options
  import opened Sequences
  import opened Strings
  import opened OverrideChoice
  import opened Expansion
  import opened StoreWrites

  // ---- reads of any flag ----

  /** Evaluation without a cache, of the content or of another flag. */
  ghost function ReadAt(st: Store, fuel: nat, n: Name, flag: Flag): Outcome<Option<string>> {
    if flag == CONTENT then Get(st, fuel, n)
    else
      var e := At(st.vars, n);
      if flag == "" || flag !in e.flags then Done(None)
      else Expanded(ExpandAll(st, fuel, e.flags[flag], CacheKey(n, flag)))
  }

  function Expanded(x: Outcome<string>): Outcome<Option<string>> {
    match x
    case Unfinished => Unfinished
    case Failed => Failed
    case Done(v) => Done(Some(v))
  }

  /** Some depth gives the outcome. */
  ghost predicate Reads(st: Store, n: Name, flag: Flag, r: Outcome<Option<string>>) {
    r != Unfinished ==> exists f: nat :: ReadAt(st, f, n, flag) == r
  }

  /** And the outcome at this depth, if there is one, is it. */
  ghost predicate ReadsWithin(st: Store, fuel: nat, n: Name, flag: Flag, r: Outcome<Option<string>>) {
    Reads(st, n, flag, r) && (ReadAt(st, fuel, n, flag) != Unfinished ==> r == ReadAt(st, fuel, n, flag))
  }

  lemma ReadUnique(st: Store, fuel: nat, n: Name, flag: Flag, r: Outcome<Option<string>>)
    requires Reads(st, n, flag, r) && r != Unfinished
    ensures ReadsWithin(st, fuel, n, flag, r)
  {
    var f: nat :| ReadAt(st, f, n, flag) == r;
    var g := Max(f, fuel);
    if flag == CONTENT {
      EvalDeeper(st, f, g, n, true);
      EvalDeeper(st, fuel, g, n, true);
    } else {
      var e := At(st.vars, n);
      if flag != "" && flag in e.flags {
        ExpandAllDeeper(st, f, g, e.flags[flag], CacheKey(n, flag));
        ExpandAllDeeper(st, fuel, g, e.flags[flag], CacheKey(n, flag));
      }
    }
  }

  lemma ContentReads(st: Store, fuel: nat, n: Name, r: Outcome<Option<string>>)
    ensures Reads(st, n, CONTENT, r) <==> Gets(st, n, r)
    ensures ReadsWithin(st, fuel, n, CONTENT, r) <==> GetsWithin(st, fuel, n, r)
  {
    if Reads(st, n, CONTENT, r) && r != Unfinished {
      var f: nat :| ReadAt(st, f, n, CONTENT) == r;
      assert Get(st, f, n) == r;
    }
    if Gets(st, n, r) && r != Unfinished {
      var f: nat :| Get(st, f, n) == r;
      assert ReadAt(st, f, n, CONTENT) == r;
    }
  }

  lemma FlagOutcome(st: Store, fuel: nat, n: Name, flag: Flag, x: Outcome<string>)
    requires flag != "" && flag != CONTENT
    requires var e := At(st.vars, n); flag in e.flags && ExpandsWithin(st, fuel, e.flags[flag], CacheKey(n, flag), x)
    ensures ReadsWithin(st, fuel, n, flag, Expanded(x))
  {
    if x != Unfinished {
      var f: nat :| ExpandAll(st, f, At(st.vars, n).flags[flag], CacheKey(n, flag)) == x;
      assert ReadAt(st, f, n, flag) == Expanded(x);
    }
  }

  lemma FlagAbsent(st: Store, fuel: nat, n: Name, flag: Flag)
    requires flag != CONTENT && (flag == "" || flag !in At(st.vars, n).flags)
    ensures ReadsWithin(st, fuel, n, flag, Done(None))
  {
    assert ReadAt(st, fuel, n, flag) == Done(None);
  }

  // ---- keys ----

  /** The key under which a read is cached. A read of the flag "" is never cached. */
  function CacheKey(n: Name, flag: Flag): string {
    if flag == CONTENT then n else n + "[" + flag + "]"
  }

  predicate Plain(n: Name) {
    '[' !in n
  }

  /** The name of a variable reads like a flag of another one. */
  predicate Ambiguous(n: Name) {
    exists i :: 0 <= i < |n| - 1 && n[i] == '[' && n[|n| - 1] == ']' && n[i + 1..|n| - 1] != "" && n[i + 1..|n| - 1] != CONTENT
  }

  /** The reads that may be mixed freely: the content of names that are not ambiguous, and the flags of
      names without '['. */
  predicate Proper(n: Name, flag: Flag) {
    flag == "" || if flag == CONTENT then !Ambiguous(n) else Plain(n)
  }

  /** A read of the content shares its key with some read of a flag exactly when the name is ambiguous. */
  lemma ContentSharesKey(n: Name)
    ensures Ambiguous(n) <==> exists m, flag :: flag != "" && flag != CONTENT && CacheKey(m, flag) == CacheKey(n, CONTENT)
  {
    hide Ambiguous;
    if Ambiguous(n) {
      var m, flag := KeyOwner(n);
      assert CacheKey(m, flag) == CacheKey(n, CONTENT);
    }
    forall m, flag | flag != "" && flag != CONTENT && CacheKey(m, flag) == CacheKey(n, CONTENT) ensures Ambiguous(n) {
      FlagKeyAmbiguous(m, flag);
    }
  }

  lemma KeyOwner(n: Name) returns (m: Name, flag: Flag)
    requires Ambiguous(n)
    ensures flag != "" && flag != CONTENT && CacheKey(m, flag) == n
  {
    var i :| 0 <= i < |n| - 1 && n[i] == '[' && n[|n| - 1] == ']' && n[i + 1..|n| - 1] != "" && n[i + 1..|n| - 1] != CONTENT;
    m, flag := n[..i], n[i + 1..|n| - 1];
    BracketSplit(n, i);
  }

  lemma FlagKeyAmbiguous(m: Name, flag: Flag)
    requires flag != "" && flag != CONTENT
    ensures Ambiguous(CacheKey(m, flag))
  {
    FlagKeyParts(m, flag);
    var n := CacheKey(m, flag);
    assert 0 <= |m| < |n| - 1 && n[|m|] == '[' && n[|m| + 1..|n| - 1] == flag;
  }

  lemma FlagKeyParts(m: Name, flag: Flag)
    requires flag != CONTENT
    ensures var k := CacheKey(m, flag);
      |k| == |m| + |flag| + 2 && k[|m|] == '[' && k[|k| - 1] == ']' && k[|m| + 1..|k| - 1] == flag && k[..|m|] == m
  {
    var k := CacheKey(m, flag);
    assert k[..|m|] == m;
    assert k[|m| + 1..|k| - 1] == flag;
  }

  /** Two flag reads of names without '[' have different keys. */
  lemma PlainKeysDiffer(n: Name, flag: Flag, m: Name, other: Flag)
    requires Plain(n) && Plain(m) && flag != CONTENT && other != CONTENT && CacheKey(n, flag) == CacheKey(m, other)
    ensures n == m && flag == other
  {
    FlagKeyParts(n, flag);
    FlagKeyParts(m, other);
    var k := CacheKey(n, flag);
    assert forall i :: 0 <= i < |n| ==> k[i] == n[i];
    assert forall i :: 0 <= i < |m| ==> k[i] == m[i];
    assert |n| == |m|;
  }

  /** No two proper reads share a key. */
  lemma ProperKeysDiffer(n: Name, flag: Flag, m: Name, other: Flag)
    requires Proper(n, flag) && Proper(m, other) && flag != "" && other != "" && (n, flag) != (m, other)
    ensures CacheKey(n, flag) != CacheKey(m, other)
  {
    ContentSharesKey(n);
    ContentSharesKey(m);
    if flag != CONTENT && other != CONTENT && CacheKey(n, flag) == CacheKey(m, other) {
      PlainKeysDiffer(n, flag, m, other);
    }
  }

  /** Every read that is not proper shares its key with a proper one: none is left out without need. */
  lemma ImproperSharesKey(n: Name, flag: Flag)
    requires !Proper(n, flag)
    ensures exists m, other :: (m, other) != (n, flag) && other != "" && Proper(m, other) && CacheKey(m, other) == CacheKey(n, flag)
  {
    if flag == CONTENT {
      AmbiguousOwner(n);
    } else {
      BracketedOwner(n, flag);
    }
  }

  lemma AmbiguousOwner(n: Name)
    requires Ambiguous(n)
    ensures exists m, other :: other != "" && other != CONTENT && Plain(m) && CacheKey(m, other) == n
  {
    var i := FirstBracket(n);
    var j :| 0 <= j < |n| - 1 && n[j] == '[' && n[|n| - 1] == ']' && n[j + 1..|n| - 1] != "" && n[j + 1..|n| - 1] != CONTENT;
    InnerBracket(n, i, j);
    OwnerAt(n, i);
  }

  lemma OwnerAt(n: Name, i: nat)
    requires i < |n| - 1 && n[i] == '[' && n[|n| - 1] == ']' && '[' !in n[..i]
    requires n[i + 1..|n| - 1] != "" && n[i + 1..|n| - 1] != CONTENT
    ensures exists m, other :: other != "" && other != CONTENT && Plain(m) && CacheKey(m, other) == n
  {
    BracketSplit(n, i);
    var m, other := n[..i], n[i + 1..|n| - 1];
    assert Plain(m) && CacheKey(m, other) == n;
  }

  lemma BracketSplit(n: Name, i: nat)
    requires i < |n| - 1 && n[i] == '[' && n[|n| - 1] == ']'
    ensures n == n[..i] + "[" + n[i + 1..|n| - 1] + "]"
  {
  }

  /** What is between an earlier '[' and the end holds the later one. */
  lemma InnerBracket(n: Name, i: nat, j: nat)
    requires i <= j < |n| - 1 && n[j] == '[' && n[j + 1..|n| - 1] != "" && n[j + 1..|n| - 1] != CONTENT
    ensures n[i + 1..|n| - 1] != "" && n[i + 1..|n| - 1] != CONTENT
  {
    var other := n[i + 1..|n| - 1];
    if i < j {
      assert other[j - i - 1] == n[j] == '[';
      assert '[' in other && '[' !in CONTENT;
    }
  }

  lemma BracketedOwner(n: Name, flag: Flag)
    requires !Plain(n) && flag != CONTENT
    ensures exists m, other :: m != n && other != "" && other != CONTENT && Plain(m) && CacheKey(m, other) == CacheKey(n, flag)
  {
    var i := FirstBracket(n);
    var m, rest := n[..i], n[i + 1..];
    var other := rest + "[" + flag;
    assert n == m + "[" + rest;
    assert other[|rest|] == '[' && '[' !in CONTENT;
    assert CacheKey(n, flag) == m + "[" + other + "]";
    assert CacheKey(m, other) == CacheKey(n, flag);
  }

  /** Position of the first '['. */
  lemma FirstBracket(n: Name) returns (i: nat)
    requires '[' in n
    ensures i < |n| && n[i] == '[' && '[' !in n[..i]
    ensures forall j :: 0 <= j < |n| && n[j] == '[' ==> i <= j
  {
    if n[0] == '[' {
      i := 0;
    } else {
      var j := FirstBracket(n[1..]);
      i := j + 1;
      assert n == [n[0]] + n[1..];
      assert n[..i] == [n[0]] + n[1..][..j];
      forall k | 0 <= k < |n| && n[k] == '[' ensures i <= k {
        assert n[1..][k - 1] == '[';
      }
    }
  }

  // ---- the cache ----

  /** Every cached value of a proper read is what evaluation without a cache gives. */
  ghost predicate CacheSound(st: Store, cache: map<string, Option<string>>) {
    forall n, flag :: flag != "" && Proper(n, flag) && CacheKey(n, flag) in cache ==>
      Reads(st, n, flag, Done(cache[CacheKey(n, flag)]))
  }

  lemma EmptyCacheSound(st: Store)
    ensures CacheSound(st, map[])
  {
  }

  lemma CacheAdd(st: Store, cache: map<string, Option<string>>, n: Name, flag: Flag, v: Option<string>)
    requires CacheSound(st, cache) && flag != "" && Proper(n, flag) && Reads(st, n, flag, Done(v))
    ensures CacheSound(st, cache[CacheKey(n, flag) := v])
  {
    var k := CacheKey(n, flag);
    forall m, other | other != "" && Proper(m, other) && CacheKey(m, other) in cache[k := v]
      ensures Reads(st, m, other, Done(cache[k := v][CacheKey(m, other)]))
    {
      if CacheKey(m, other) == k && (m, other) != (n, flag) {
        ProperKeysDiffer(n, flag, m, other);
      }
    }
  }

  /** A cached value of a proper read. */
  lemma CachedRead(st: Store, cache: map<string, Option<string>>, n: Name, flag: Flag, fuel: nat)
    requires CacheSound(st, cache) && flag != "" && Proper(n, flag) && CacheKey(n, flag) in cache
    ensures ReadsWithin(st, fuel, n, flag, Done(cache[CacheKey(n, flag)]))
  {
    ReadUnique(st, fuel, n, flag, Done(cache[CacheKey(n, flag)]));
  }

  lemma CachedContent(st: Store, cache: map<string, Option<string>>, n: Name, fuel: nat)
    requires CacheSound(st, cache) && !Ambiguous(n) && n in cache
    ensures GetsWithin(st, fuel, n, Done(cache[n]))
  {
    assert CacheKey(n, CONTENT) == n;
    CachedRead(st, cache, n, CONTENT, fuel);
    ContentReads(st, fuel, n, Done(cache[n]));
  }

  lemma CacheContent(st: Store, cache: map<string, Option<string>>, n: Name, v: Option<string>)
    requires CacheSound(st, cache) && !Ambiguous(n) && Gets(st, n, Done(v))
    ensures CacheSound(st, cache[n := v])
  {
    ContentReads(st, 0, n, Done(v));
    CacheAdd(st, cache, n, CONTENT, v);
  }

  lemma ReadWithinReads(st: Store, fuel: nat, n: Name, flag: Flag, r: Outcome<Option<string>>)
    requires ReadsWithin(st, fuel, n, flag, r)
    ensures Reads(st, n, flag, r)
  {
  }

  // ---- names in the index ----

  /** No variable behind an override has an ambiguous name. */
  ghost predicate Unambiguous(index: Index) {
    forall base, p :: Lists(index, base, p) ==> !Ambiguous(p.0)
  }

  lemma SelectedUnambiguous(index: Index, n: Name, overrides: seq<string>)
    requires Unambiguous(index) && n in index && Select(index[n], overrides).Some?
    ensures !Ambiguous(Select(index[n], overrides).value)
  {
    SelectedListed(index[n], overrides);
    var q :| q in index[n] && q.0 == Select(index[n], overrides).value;
    assert Lists(index, n, q);
  }

  /** The name a write files in the index, if any. */
  function FiledName(w: Write): Option<Name> {
    match w
    case DelVar(_) => None
    case DelVarFlag(_, _) => None
    case SetVarFlag(n, flag, _) => if flag == DEFAULTVAL then Some(n) else None
    case SetVar(n, _, _) =>
      var kw := ParseKeyword(n, 0);
      if kw.Some? then Some(kw.value.0) else Some(n)
  }

  lemma FiledUnambiguous(index: Index, name: Name)
    requires Unambiguous(index) && !Ambiguous(name)
    ensures Unambiguous(UpdateOverrides(index, name))
  {
    UpdateOverridesLists(index, name);
  }

  lemma FewerUnambiguous(index: Index, fewer: Index)
    requires Unambiguous(index)
    requires forall b, p :: Lists(fewer, b, p) ==> Lists(index, b, p)
    ensures Unambiguous(fewer)
  {
  }

  /** Writes that file unambiguous names keep the index so. */
  lemma FlatWriteUnambiguous(s: Flattened, overrides: seq<string>, w: Write)
    requires Unambiguous(s.index)
    requires FiledName(w).Some? ==> !Ambiguous(FiledName(w).value)
    ensures Unambiguous(FlatWriteOne(s, overrides, w).index)
  {
    hide Unambiguous, Ambiguous;
    match w {
      case DelVar(n) =>
        ForgetFewer(s.index, n);
        FewerUnambiguous(s.index, ForgetOverrides(s.index, n));
      case SetVarFlag(n, flag, value) =>
        FlagWritten(s, overrides, n, flag, value);
        if flag == DEFAULTVAL {
          FiledUnambiguous(s.index, n);
        }
      case DelVarFlag(n, flag) => FlagDeleted(s, overrides, n, flag);
      case SetVar(n, value, parsing) =>
        if ParseKeyword(n, 0).Some? {
          OperationWritten(s, overrides, n, value, parsing);
          FiledUnambiguous(s.index, ParseKeyword(n, 0).value.0);
        } else {
          SetUnambiguous(s, overrides, n, value, parsing);
        }
    }
  }

  lemma SetUnambiguous(s: Flattened, overrides: seq<string>, n: Name, value: string, parsing: bool)
    requires Unambiguous(s.index) && ParseKeyword(n, 0).None? && !Ambiguous(n)
    ensures Unambiguous(FlatWriteOne(s, overrides, SetVar(n, value, parsing)).index)
  {
    if parsing {
      ParsedWritten(s, overrides, n, value);
      FiledUnambiguous(s.index, n);
    } else {
      ContentWritten(s, overrides, n, value);
      var s1 := Displaced(s, n, overrides);
      if n in s.index {
        DelAllFewer(s, ActiveNames(s.index[n], overrides));
      }
      FewerUnambiguous(s.index, s1.index - {n});
      FiledUnambiguous(s1.index - {n}, n);
    }
  }

  // ---- runs of reads and writes ----

  datatype Access = Set(write: Write) | Read(name: Name, flag: Flag)

  /** Proper reads, and writes that file unambiguous names. */
  predicate Mixable(a: Access) {
    match a
    case Set(w) => FiledName(w).Some? ==> !Ambiguous(FiledName(w).value)
    case Read(n, flag) => Proper(n, flag)
  }

  /** The writes of a run. */
  function Writes(accesses: seq<Access>): seq<Write> {
    if accesses == [] then []
    else
      var last := accesses[|accesses| - 1];
      Writes(accesses[..|accesses| - 1]) + if last.Set? then [last.write] else []
  }

  lemma WritesNext(s: Flattened, overrides: seq<string>, accesses: seq<Access>, a: Access)
    ensures FlatRun(s, overrides, Writes(accesses + [a])) ==
            if a.Set? then FlatWriteOne(FlatRun(s, overrides, Writes(accesses)), overrides, a.write)
            else FlatRun(s, overrides, Writes(accesses))
  {
    var all := accesses + [a];
    assert all[..|all| - 1] == accesses;
    var ws := Writes(accesses);
    if a.Set? {
      assert (ws + [a.write])[..|ws|] == ws;
    } else {
      assert ws + [] == ws;
    }
  }

  ghost function StoreAfter(s: Flattened, overrides: seq<string>, accesses: seq<Access>): Store {
    var after := FlatRun(s, overrides, Writes(accesses));
    Store(after.vars, after.index, overrides)
  }

  lemma StoreNext(s: Flattened, overrides: seq<string>, accesses: seq<Access>, a: Access)
    ensures var before, after := StoreAfter(s, overrides, accesses), StoreAfter(s, overrides, accesses + [a]);
      Flattened(after.vars, after.index) ==
      if a.Set? then FlatWriteOne(Flattened(before.vars, before.index), overrides, a.write)
      else Flattened(before.vars, before.index)
    ensures StoreAfter(s, overrides, accesses + [a]).overrides == overrides
  {
    WritesNext(s, overrides, accesses, a);
  }

  /** The answer is what evaluation without a cache gives on the flat map at that point. */
  ghost predicate Answers(st: Store, fuel: nat, a: Access, r: Outcome<Option<string>>) {
    match a
    case Set(_) => true
    case Read(n, flag) => ReadsWithin(st, fuel, n, flag, r)
  }

  lemma NothingWritten(s: Flattened, overrides: seq<string>)
    ensures StoreAfter(s, overrides, []) == Store(s.vars, s.index, overrides)
  {
  }

  // ---- two reads that share a key ----

  lemma {:induction false} NoKeyword(name: Name, i: nat)
    requires i <= |name| && '_' !in name
    ensures ParseKeyword(name, i) == None
    decreases |name| - i
  {
    var rest := name[i..];
    forall k ensures KeywordTail(rest, k).None? {
      assert KeywordText(k)[0] == '_';
      assert rest != "" ==> rest[0] == name[i] != '_';
    }
    if i < |name| {
      NoKeyword(name, i + 1);
    }
  }

  /** A store with the content of `A[b]` and a flag b of `A`, and what the two are. */
  lemma CollidingStore()
    ensures var s := FlatWriteOne(Flattened(map[], map[]), [], SetVarFlag("A", "b", "2"));
      var t := FlatWriteOne(s, [], SetVar("A[b]", "1", false));
      var st := Store(t.vars, t.index, []);
      && Unambiguous(s.index) && Unambiguous(t.index)
      && ReadAt(st, 0, "A", "b") == Done(Some("2"))
      && Get(st, 0, "A[b]") == Done(Some("1"))
  {
    var own, other := Entry(map[CONTENT := "1"], [], [], []), Entry(map["b" := "2"], [], [], []);
    NoKeyword("A[b]", 0);
    assert "A" != "A[b]" by {
      assert |"A"| != |"A[b]"|;
    }
    var st := Store(map["A" := other, "A[b]" := own], map[], []);
    assert At(st.vars, "A[b]") == own && At(st.vars, "A") == other;
    assert Surrounded(Own(own), own, []) == Some("1");
    assert AddNew([], Texts([], [])) == [];
    assert Get(st, 0, "A[b]") == Done(Some("1"));
  }

  // ---- small facts for the reads ----

  lemma AppendNext(v: string, ops: seq<Op>, overrides: seq<string>)
    requires ops != []
    ensures AppendAll(v, Texts(ops, overrides)) ==
            AppendAll(if Applies(ops[0], overrides) then v + ops[0].text else v, Texts(ops[1..], overrides))
    ensures PrependAll(v, Texts(ops, overrides)) ==
            PrependAll(if Applies(ops[0], overrides) then ops[0].text + v else v, Texts(ops[1..], overrides))
  {
    var rest := Texts(ops[1..], overrides);
    if Applies(ops[0], overrides) {
      assert ([ops[0].text] + rest)[1..] == rest;
    } else {
      assert [] + rest == rest;
    }
  }

  lemma NothingToExpand(st: Store)
    ensures ExpandsEach(st, [], Done([]))
  {
    assert ExpandEach(st, 0, []) == Done([]);
  }

  lemma NothingToSubstitute(st: Store, self: Name)
    ensures Substitutes(st, "", self, Done(""))
  {
    assert Substitute(st, 0, "", self) == Done("");
  }

  /** Giving up claims nothing. */
  lemma GivingUp(st: Store, s: string, self: Name)
    ensures Expands(st, s, self, Unfinished) && Substitutes(st, s, self, Unfinished)
    ensures forall n, expand :: Evaluates(st, n, expand, Unfinished)
    ensures forall n, expand, from :: Finishes(st, n, expand, from, Unfinished)
    ensures forall removes :: ExpandsEach(st, removes, Unfinished)
  {
  }

  lemma {:induction false} KeyCharsPlain(s: string)
    ensures Plain(s[..KeyLength(s)])
  {
    if s != "" && KeyChar(s[0]) {
      KeyCharsPlain(s[1..]);
      assert s[..KeyLength(s)] == [s[0]] + s[1..][..KeyLength(s[1..])];
    }
  }

  lemma KeyPlain(s: string)
    requires RefLength(s) > 0
    ensures Plain(s[2..RefLength(s) - 1])
  {
    KeyCharsPlain(s[2..]);
    assert s[2..RefLength(s) - 1] == s[2..][..KeyLength(s[2..])];
  }

  lemma KeyUnambiguous(s: string)
    requires RefLength(s) > 0
    ensures !Ambiguous(s[2..RefLength(s) - 1])
  {
    KeyPlain(s);
  }
}
