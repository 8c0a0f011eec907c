/** What a write to a name with a keyword does, with the keywords spelled out, from the name to the value. */
module OperationLaws {
  import opened DataStore
  import opened Options
  import opened Strings
  import opened OverrideChoice
  import opened Expansion
  import opened ExpandCache
  import opened ExpansionLaws
  import opened ReferenceLaws
  import opened StoreWrites

  // ---- the name ----

  ghost predicate NoCapitals(s: string) {
    forall c :: c in s ==> c < 'A' || 'Z' < c
  }

  /** The rest of a name is the keyword, and behind it nothing or '_' and text without capitals. */
  ghost predicate Reads(rest: string, keyword: string) {
    && |rest| >= |keyword| && rest[..|keyword|] == keyword
    && (rest == keyword || (rest[|keyword|] == '_' && NoCapitals(rest[|keyword| + 1..])))
  }

  ghost predicate ReadsAny(rest: string) {
    Reads(rest, "_append") || Reads(rest, "_prepend") || Reads(rest, "_remove")
  }

  /** No keyword fits in front of place i. */
  ghost predicate NoneBefore(name: Name, i: nat) {
    forall j :: 0 <= j < i && j <= |name| ==> !ReadsAny(name[j..])
  }

  /** The override behind the keyword, with its '_'. */
  ghost function Behind(o: Option<string>): string {
    match o
    case None => ""
    case Some(v) => "_" + v
  }

  lemma TailReads(rest: string, k: Keyword)
    ensures KeywordTail(rest, k).Some? <==>
            Reads(rest, match k case Append => "_append" case Prepend => "_prepend" case Remove => "_remove")
  {
    var kw := KeywordText(k);
    if |rest| >= |kw| && rest[..|kw|] == kw {
      assert rest == kw + rest[|kw|..];
      assert rest[|kw|..] != "" ==> rest[|kw|..][1..] == rest[|kw| + 1..];
    }
  }

  lemma TailOf(k: Keyword, o: Option<string>)
    requires o.Some? ==> NoCapitals(o.value)
    ensures KeywordTail(KeywordText(k) + Behind(o), k) == Some(o)
  {
    var kw := KeywordText(k);
    var rest := kw + Behind(o);
    assert rest[..|kw|] == kw && rest[|kw|..] == Behind(o);
    if o.Some? {
      assert Behind(o)[1..] == o.value;
    }
  }

  lemma TailOfOther(k: Keyword, other: Keyword, o: Option<string>)
    requires k != other
    ensures KeywordTail(KeywordText(k) + Behind(o), other) == None
  {
    var rest := KeywordText(k) + Behind(o);
    assert rest[1] == KeywordText(k)[1];
  }

  lemma ParsedHere(name: Name, i: nat, n: Name, k: Keyword, o: Option<string>)
    requires i == |n| && name == n + KeywordText(k) + Behind(o) && (o.Some? ==> NoCapitals(o.value))
    ensures ParseKeyword(name, i) == Some((n, k, o))
  {
    hide KeywordTail, KeywordText, NoCapitals, ParseKeyword, Behind;
    var rest := KeywordText(k) + Behind(o);
    assert name == n + rest;
    assert name[i..] == rest && name[..i] == n;
    TailOf(k, o);
    forall other | other != k ensures KeywordTail(rest, other) == None {
      TailOfOther(k, other, o);
    }
    ParsedWhere(name, i, k, o);
  }

  lemma ParsedWhere(name: Name, i: nat, k: Keyword, o: Option<string>)
    requires i <= |name| && KeywordTail(name[i..], k) == Some(o)
    requires forall other :: other != k ==> KeywordTail(name[i..], other) == None
    ensures ParseKeyword(name, i) == Some((name[..i], k, o))
  {
    hide KeywordTail;
  }

  lemma {:induction false} ParsedAfter(name: Name, i: nat, j: nat)
    requires i <= j <= |name| && NoneBefore(name, j)
    ensures ParseKeyword(name, i) == ParseKeyword(name, j)
    decreases j - i
  {
    if i < j {
      assert !ReadsAny(name[i..]);
      NotHere(name, i);
      ParsedAfter(name, i + 1, j);
    }
  }

  lemma NotHere(name: Name, i: nat)
    requires i < |name| && !ReadsAny(name[i..])
    ensures ParseKeyword(name, i) == ParseKeyword(name, i + 1)
  {
    hide Reads, KeywordTail;
    forall k ensures KeywordTail(name[i..], k).None? {
      TailReads(name[i..], k);
    }
  }

  lemma KeywordParsed(n: Name, k: Keyword, o: Option<string>)
    requires o.Some? ==> NoCapitals(o.value)
    requires NoneBefore(n + KeywordText(k) + Behind(o), |n|)
    ensures ParseKeyword(n + KeywordText(k) + Behind(o), 0) == Some((n, k, o))
  {
    hide ParseKeyword, NoneBefore;
    var name := n + KeywordText(k) + Behind(o);
    ParsedAfter(name, 0, |n|);
    ParsedHere(name, |n|, n, k, o);
  }

  /** A name is taken as a plain variable exactly when no keyword fits anywhere. */
  lemma PlainName(name: Name)
    ensures ParseKeyword(name, 0).None? <==> NoneBefore(name, |name| + 1)
  {
    PlainNameFrom(name, 0);
  }

  lemma {:induction false} PlainNameFrom(name: Name, i: nat)
    requires i <= |name|
    ensures ParseKeyword(name, i).None? <==> forall j :: i <= j <= |name| ==> !ReadsAny(name[j..])
    decreases |name| - i
  {
    hide Reads, KeywordTail;
    forall k ensures KeywordTail(name[i..], k).Some? <==>
                     Reads(name[i..], match k case Append => "_append" case Prepend => "_prepend" case Remove => "_remove") {
      TailReads(name[i..], k);
    }
    if i < |name| {
      PlainNameFrom(name, i + 1);
    }
  }

  lemma ReadsLonger(rest: string, more: string, keyword: string)
    requires rest != "" && more != "" && more[0] == '_'
    requires forall i :: 0 < i < |keyword| ==> keyword[i] != '_'
    requires Reads(rest + more, keyword)
    ensures Reads(rest, keyword)
  {
    var all, k := rest + more, |keyword|;
    assert forall i :: 0 <= i < k ==> all[i] == all[..k][i] == keyword[i];
    assert all[|rest|] == '_';
    assert rest[..k] == all[..k];
    if |rest| > k {
      assert all[k] == rest[k] && all[k + 1..] == rest[k + 1..] + more;
      CapitalFree(rest[k + 1..], more);
    } else {
      assert rest == rest[..k];
    }
  }

  lemma CapitalFree(a: string, b: string)
    requires NoCapitals(a + b)
    ensures NoCapitals(a)
  {
    assert forall c :: c in a + b <==> c in a || c in b;
  }

  /** Behind a name that no keyword fits, a keyword is the first one. */
  lemma FirstKeyword(n: Name, more: string)
    requires NoneBefore(n, |n| + 1) && more != "" && more[0] == '_'
    ensures NoneBefore(n + more, |n|)
  {
    hide Reads;
    var name := n + more;
    forall j | 0 <= j < |n| ensures !ReadsAny(name[j..]) {
      var rest := n[j..];
      assert name[j..] == rest + more && !ReadsAny(rest);
      if Reads(name[j..], "_append") {
        ReadsLonger(rest, more, "_append");
      }
      if Reads(name[j..], "_prepend") {
        ReadsLonger(rest, more, "_prepend");
      }
      if Reads(name[j..], "_remove") {
        ReadsLonger(rest, more, "_remove");
      }
    }
  }

  // ---- the write ----

  /** The operation at the end of one list; flags, other operations and other variables as they were. */
  ghost predicate OneMore(s: Flattened, s': Flattened, n: Name, appends: seq<Op>, prepends: seq<Op>, removes: seq<Op>) {
    var e, e' := At(s.vars, n), At(s'.vars, n);
    && e'.flags == e.flags
    && e'.appends == e.appends + appends && e'.prepends == e.prepends + prepends && e'.removes == e.removes + removes
    && forall m :: m != n ==> At(s'.vars, m) == At(s.vars, m)
  }

  /** What a write of t to n_append does, with or without an override. */
  lemma AppendWritten(s: Flattened, overrides: seq<string>, n: Name, o: Option<string>, t: string, parsing: bool)
    requires (o.Some? ==> NoCapitals(o.value)) && NoneBefore(n + "_append" + Behind(o), |n|)
    ensures var s' := FlatWriteOne(s, overrides, SetVar(n + "_append" + Behind(o), t, parsing));
      OneMore(s, s', n, [Op(t, o)], [], []) && s'.index == UpdateOverrides(s.index, n)
  {
    hide FlatWriteOne, UpdateOverrides, NoneBefore, ParseKeyword;
    KeywordParsed(n, Append, o);
    OperationWritten(s, overrides, n + "_append" + Behind(o), t, parsing);
  }

  lemma PrependWritten(s: Flattened, overrides: seq<string>, n: Name, o: Option<string>, t: string, parsing: bool)
    requires (o.Some? ==> NoCapitals(o.value)) && NoneBefore(n + "_prepend" + Behind(o), |n|)
    ensures var s' := FlatWriteOne(s, overrides, SetVar(n + "_prepend" + Behind(o), t, parsing));
      OneMore(s, s', n, [], [Op(t, o)], []) && s'.index == UpdateOverrides(s.index, n)
  {
    hide FlatWriteOne, UpdateOverrides, NoneBefore, ParseKeyword;
    KeywordParsed(n, Prepend, o);
    OperationWritten(s, overrides, n + "_prepend" + Behind(o), t, parsing);
  }

  lemma RemoveWritten(s: Flattened, overrides: seq<string>, n: Name, o: Option<string>, t: string, parsing: bool)
    requires (o.Some? ==> NoCapitals(o.value)) && NoneBefore(n + "_remove" + Behind(o), |n|)
    ensures var s' := FlatWriteOne(s, overrides, SetVar(n + "_remove" + Behind(o), t, parsing));
      OneMore(s, s', n, [], [], [Op(t, o)]) && s'.index == UpdateOverrides(s.index, n)
  {
    hide FlatWriteOne, UpdateOverrides, NoneBefore, ParseKeyword;
    KeywordParsed(n, Remove, o);
    OperationWritten(s, overrides, n + "_remove" + Behind(o), t, parsing);
  }

  // ---- the value ----

  /** The override, if there is one, is made of these parts. */
  ghost predicate Conditioned(o: Option<string>, parts: seq<string>) {
    o.Some? ==> parts != [] && (forall p :: p in parts ==> '_' !in p) && o.value == Join(parts, '_')
  }

  /** The operation takes effect: no override, an empty one, or one with every part in OVERRIDES. */
  ghost predicate Acts(o: Option<string>, parts: seq<string>, overrides: seq<string>) {
    o.None? || o.value == "" || forall p :: p in parts ==> p in overrides
  }

  ghost function Effective(t: string, o: Option<string>, parts: seq<string>, overrides: seq<string>): string {
    if Acts(o, parts, overrides) then t else ""
  }

  lemma EffectiveText(t: string, o: Option<string>, parts: seq<string>, overrides: seq<string>)
    requires Conditioned(o, parts)
    ensures TextIf(Op(t, o), overrides) == Effective(t, o, parts, overrides)
  {
    if o.Some? {
      SplitJoin(parts, '_');
    }
  }

  /** Filing a variable under its splits leaves the conditional variables of the variable itself alone. */
  lemma SameSelection(s: Flattened, overrides: seq<string>, vars: Vars, n: Name)
    ensures Matched(StoreOf(Flattened(vars, UpdateOverrides(s.index, n)), overrides), n) == Matched(StoreOf(s, overrides), n)
  {
    hide AddSplits, LooksLikeOverride, Select;
    UpdateStarts(s.index, n);
    if LastUnderscore(n) >= 0 {
      AddSplitsElsewhere(s.index, n, LastUnderscore(n), n);
    }
  }

  lemma {:induction false} AddSplitsElsewhere(index: Index, name: Name, i: nat, b: Name)
    requires i < |name| && |b| > i
    ensures b in AddSplits(index, name, i) <==> b in index
    ensures b in index ==> AddSplits(index, name, i)[b] == index[b]
    decreases i
  {
    if LooksLikeOverride(name[i + 1..]) {
      var index' := AddPair(index, name[..i], name, name[i + 1..]);
      var j := LastUnderscore(name[..i]);
      if j > 0 {
        AddSplitsElsewhere(index', name, j, b);
      }
    }
  }

  ghost predicate Unconditional(st: Store, n: Name) {
    Matched(st, n).None? && At(st.vars, n).removes == []
  }

  ghost function RawOf(st: Store, n: Name): Option<string> {
    Surrounded(Own(At(st.vars, n)), At(st.vars, n), st.overrides)
  }

  /** Nothing to expand and nothing removed. */
  ghost function Both(raw: Option<string>): Parsed {
    Parsed(raw, raw, [])
  }

  /** Without references, evaluation answers the unexpanded value. */
  lemma PlainValue(st: Store, fuel: nat, n: Name)
    requires Unconditional(st, n)
    requires RawOf(st, n).Some? ==> NoReference(RawOf(st, n).value)
    ensures Get(st, fuel, n) == Done(RawOf(st, n))
    ensures Eval(st, fuel, n, true) == Done(Both(RawOf(st, n)))
  {
    hide Surrounded, Own, Matched, NoReference, ExpandAll;
    var raw := RawOf(st, n);
    if raw.Some? {
      OpeningMeans(raw.value);
      NoOpening(st, fuel, raw.value, n);
      NothingRemoved(st, fuel, raw.value);
    }
    assert Finish(st, fuel, n, true, Parsed(Own(At(st.vars, n)), None, [])) == Done(Parsed(raw, raw, []));
  }

  lemma NothingRemoved(st: Store, fuel: nat, raw: string)
    ensures AddNew([], Texts([], st.overrides)) == [] && ExpandEach(st, fuel, []) == Done([])
    ensures Concluded(raw, raw, [], []) == Parsed(Some(raw), Some(raw), [])
  {
  }

  /** What was evaluated, without an override selected and without removals. */
  lemma RawValue(st: Store, n: Name, p: Parsed)
    requires Unconditional(st, n) && Evaluates(st, n, true, Done(p))
    ensures p.raw == RawOf(st, n)
  {
    hide Surrounded, Own, Matched, ExpandAll, ExpandEach;
    var f: nat :| Eval(st, f, n, true) == Done(p);
    assert Finish(st, f, n, true, Parsed(Own(At(st.vars, n)), None, [])) == Done(p);
  }

  lemma PlainParts(a: string, b: string)
    requires NoReference(a + b)
    ensures NoReference(a) && NoReference(b)
  {
    var s := a + b;
    assert forall i :: 0 <= i < |a| ==> s[i] == a[i];
    forall i | 0 <= i < |b| - 1 && b[i] == '$' ensures b[i + 1] != '{' {
      assert s[|a| + i] == b[i] && s[|a| + i + 1] == b[i + 1];
    }
  }

  /** The value before a write, which has no references in it. */
  ghost predicate Had(s: Flattened, overrides: seq<string>, n: Name, p: Parsed) {
    var st := StoreOf(s, overrides);
    Unconditional(st, n) && Evaluates(st, n, true, Done(p)) && NoReference(OrEmpty(p.raw))
  }

  lemma HadRaw(s: Flattened, overrides: seq<string>, n: Name, p: Parsed)
    requires Had(s, overrides, n, p)
    ensures p.raw == RawOf(StoreOf(s, overrides), n) && p.expanded == p.raw
  {
    hide Surrounded, Own, Matched, Get;
    var st := StoreOf(s, overrides);
    RawValue(st, n, p);
    var f: nat :| Eval(st, f, n, true) == Done(p);
    PlainValue(st, f, n);
    assert Get(st, f, n) == Done(p.expanded) by {
      EvaluatedForCache(st, n, true, p);
      var g: nat :| Get(st, g, n) == Done(p.expanded);
      PlainValue(st, g, n);
    }
  }

  /** A state that answers its unexpanded value has it. */
  lemma NowHas(s: Flattened, overrides: seq<string>, n: Name, x: string)
    requires var st := StoreOf(s, overrides); Unconditional(st, n) && RawOf(st, n) == Some(x) && NoReference(x)
    ensures Had(s, overrides, n, Both(Some(x)))
    ensures forall fuel: nat :: Get(StoreOf(s, overrides), fuel, n) == Done(Some(x))
  {
    hide Surrounded, Own, Matched, NoReference, Eval;
    PlainValue(StoreOf(s, overrides), 0, n);
    assert Eval(StoreOf(s, overrides), 0, n, true) == Done(Both(Some(x)));
    forall fuel: nat ensures Get(StoreOf(s, overrides), fuel, n) == Done(Some(x)) {
      PlainValue(StoreOf(s, overrides), fuel, n);
    }
  }

  /** After an append the value is the old one followed by the text, when its override is in force. */
  lemma AppendThenGet(s: Flattened, overrides: seq<string>, n: Name, o: Option<string>, parts: seq<string>, t: string, parsing: bool,
                      p: Parsed, fuel: nat)
    requires (o.Some? ==> NoCapitals(o.value)) && Conditioned(o, parts) && NoneBefore(n + "_append" + Behind(o), |n|)
    requires Had(s, overrides, n, p) && NoReference(OrEmpty(p.raw) + Effective(t, o, parts, overrides))
    ensures var s' := FlatWriteOne(s, overrides, SetVar(n + "_append" + Behind(o), t, parsing));
      && Get(StoreOf(s', overrides), fuel, n) == Done(Some(OrEmpty(p.expanded) + Effective(t, o, parts, overrides)))
      && Had(s', overrides, n, Both(Some(OrEmpty(p.expanded) + Effective(t, o, parts, overrides))))
  {
    hide FlatWriteOne, UpdateOverrides, NoneBefore, NoReference, Get, Surrounded, Matched, TextIf, Had, Evaluates;
    var s' := FlatWriteOne(s, overrides, SetVar(n + "_append" + Behind(o), t, parsing));
    var e := At(s.vars, n);
    AppendWritten(s, overrides, n, o, t, parsing);
    assert At(s'.vars, n) == e.WithOps(Append, e.appends + [Op(t, o)]);
    HadRaw(s, overrides, n, p);
    AppendLandsLast(Own(e), e, Op(t, o), overrides);
    EffectiveText(t, o, parts, overrides);
    SameSelection(s, overrides, s'.vars, n);
    HadUnconditional(s, overrides, n, p);
    NowHas(s', overrides, n, OrEmpty(p.expanded) + Effective(t, o, parts, overrides));
  }

  lemma HadUnconditional(s: Flattened, overrides: seq<string>, n: Name, p: Parsed)
    requires Had(s, overrides, n, p)
    ensures Unconditional(StoreOf(s, overrides), n)
  {
  }

  /** After a prepend it is the text followed by the old value. */
  lemma PrependThenGet(s: Flattened, overrides: seq<string>, n: Name, o: Option<string>, parts: seq<string>, t: string, parsing: bool,
                       p: Parsed, fuel: nat)
    requires (o.Some? ==> NoCapitals(o.value)) && Conditioned(o, parts) && NoneBefore(n + "_prepend" + Behind(o), |n|)
    requires Had(s, overrides, n, p) && NoReference(Effective(t, o, parts, overrides) + OrEmpty(p.raw))
    ensures var s' := FlatWriteOne(s, overrides, SetVar(n + "_prepend" + Behind(o), t, parsing));
      && Get(StoreOf(s', overrides), fuel, n) == Done(Some(Effective(t, o, parts, overrides) + OrEmpty(p.expanded)))
      && Had(s', overrides, n, Both(Some(Effective(t, o, parts, overrides) + OrEmpty(p.expanded))))
  {
    hide FlatWriteOne, UpdateOverrides, NoneBefore, NoReference, Get, Surrounded, Matched, TextIf, Had, Evaluates;
    var s' := FlatWriteOne(s, overrides, SetVar(n + "_prepend" + Behind(o), t, parsing));
    var e := At(s.vars, n);
    PrependWritten(s, overrides, n, o, t, parsing);
    assert At(s'.vars, n) == e.WithOps(Prepend, e.prepends + [Op(t, o)]);
    HadRaw(s, overrides, n, p);
    PrependLandsFirst(Own(e), e, Op(t, o), overrides);
    EffectiveText(t, o, parts, overrides);
    SameSelection(s, overrides, s'.vars, n);
    HadUnconditional(s, overrides, n, p);
    NowHas(s', overrides, n, Effective(t, o, parts, overrides) + OrEmpty(p.expanded));
  }

  /** After a removal the words of the value are the old ones, in their order, without those of the text. */
  lemma RemoveThenGet(s: Flattened, overrides: seq<string>, n: Name, o: Option<string>, parts: seq<string>, t: string, parsing: bool,
                      p: Parsed, fuel: nat)
    requires (o.Some? ==> NoCapitals(o.value)) && Conditioned(o, parts) && NoneBefore(n + "_remove" + Behind(o), |n|)
    requires Had(s, overrides, n, p) && NoReference(t)
    ensures var s' := FlatWriteOne(s, overrides, SetVar(n + "_remove" + Behind(o), t, parsing));
      var r := Get(StoreOf(s', overrides), fuel, n);
      && r.Done? && (r.value.Some? <==> p.expanded.Some?)
      && (r.value.Some? ==>
            Words(r.value.value) == Surviving(Words(p.expanded.value), [Words(Effective(t, o, parts, overrides))]))
  {
    hide FlatWriteOne, UpdateOverrides, NoneBefore, NoReference, Get, Surrounded, Matched, Had, Evaluates, Words, Surviving, Own;
    var s' := FlatWriteOne(s, overrides, SetVar(n + "_remove" + Behind(o), t, parsing));
    var e := At(s.vars, n);
    RemoveWritten(s, overrides, n, o, t, parsing);
    assert At(s'.vars, n) == e.WithOps(Remove, [Op(t, o)]) by {
      HadUnconditional(s, overrides, n, p);
    }
    HadRaw(s, overrides, n, p);
    SameSelection(s, overrides, s'.vars, n);
    HadUnconditional(s, overrides, n, p);
    SameRaw(e, Op(t, o), overrides);
    HadPlain(s, overrides, n, p);
    RemovedValue(StoreOf(s', overrides), fuel, n, t, o, parts);
  }

  lemma HadPlain(s: Flattened, overrides: seq<string>, n: Name, p: Parsed)
    requires Had(s, overrides, n, p)
    ensures NoReference(OrEmpty(p.raw))
  {
  }

  lemma SameRaw(e: Entry, op: Op, overrides: seq<string>)
    ensures var e' := e.WithOps(Remove, [op]);
      Own(e') == Own(e) && Surrounded(Own(e'), e', overrides) == Surrounded(Own(e), e, overrides)
  {
  }

  /** The removal as evaluation sees it. */
  lemma OneRemoval(st: Store, fuel: nat, t: string, o: Option<string>, parts: seq<string>)
    requires Conditioned(o, parts) && NoReference(t)
    ensures var removes := if Acts(o, parts, st.overrides) then [t] else [];
      && AddNew([], Texts([Op(t, o)], st.overrides)) == removes
      && ExpandEach(st, fuel, removes) == Done(if Acts(o, parts, st.overrides) then [Words(t)] else [])
  {
    hide Words, NoReference, ExpandAll;
    OpeningMeans(t);
    NoOpening(st, fuel, t, "");
    if o.Some? {
      SplitJoin(parts, '_');
    }
    assert [Op(t, o)][1..] == [] && [t][1..] == [];
    assert Texts([], st.overrides) == [] && ExpandEach(st, fuel, []) == Done([]);
    assert AddNew([], [t]) == AddNew([t], []) == [t];
    assert [Words(t)] + [] == [Words(t)];
    assert ExpandEach(st, fuel, [t]) == Done([Words(t)] + []);
  }

  lemma RemovalLeaves(x: string, t: string)
    ensures Words(Kept(Tokens(x), [Words(t)])) == Surviving(Words(x), [Words(t)])
  {
    hide Words, Kept, Tokens, Surviving;
    RemovalsLeave(x, [t]);
    assert [Words(t)] == seq(|[t]|, i requires 0 <= i < |[t]| => Words([t][i]));
  }

  lemma {:induction false} NothingDropped(ws: seq<string>)
    ensures Surviving(ws, [[]]) == ws
  {
    if ws != [] {
      NothingDropped(ws[1..]);
      assert ws == [ws[0]] + ws[1..];
    }
  }

  /** The result with one removal, in force or not. */
  ghost function AfterRemoval(raw: Option<string>, t: string, acts: bool): Option<string> {
    if raw.None? || raw.value == "" || !acts then raw else Some(Kept(Tokens(raw.value), [Words(t)]))
  }

  lemma RemovedFinish(st: Store, fuel: nat, n: Name, t: string, o: Option<string>, parts: seq<string>)
    requires At(st.vars, n).removes == [Op(t, o)] && Conditioned(o, parts)
    requires NoReference(t) && NoReference(OrEmpty(RawOf(st, n)))
    ensures var r := Finish(st, fuel, n, true, Parsed(Own(At(st.vars, n)), None, []));
      r.Done? && r.value.expanded == AfterRemoval(RawOf(st, n), t, Acts(o, parts, st.overrides))
  {
    hide Surrounded, Own, NoReference, ExpandAll, Words, Kept, Tokens, AddNew, Texts, ExpandEach, Used;
    var raw := RawOf(st, n);
    if raw.Some? {
      OpeningMeans(raw.value);
      NoOpening(st, fuel, raw.value, n);
      OneRemoval(st, fuel, t, o, parts);
    }
  }

  lemma RemovalOfWords(raw: string, t: string, o: Option<string>, parts: seq<string>, overrides: seq<string>)
    ensures Words(AfterRemoval(Some(raw), t, Acts(o, parts, overrides)).value) == Surviving(Words(raw), [Words(Effective(t, o, parts, overrides))])
  {
    hide Words, Surviving, Kept, Tokens;
    NoWords();
    NothingDropped(Words(raw));
    RemovalLeaves(raw, t);
    NothingSurvives([Words(Effective(t, o, parts, overrides))]);
  }

  lemma RemovedValue(st: Store, fuel: nat, n: Name, t: string, o: Option<string>, parts: seq<string>)
    requires Matched(st, n).None? && At(st.vars, n).removes == [Op(t, o)] && Conditioned(o, parts)
    requires NoReference(t) && NoReference(OrEmpty(RawOf(st, n)))
    ensures var r, raw := Get(st, fuel, n), RawOf(st, n);
      && r.Done? && (r.value.Some? <==> raw.Some?)
      && (raw.Some? ==> Words(r.value.value) == Surviving(Words(raw.value), [Words(Effective(t, o, parts, st.overrides))]))
  {
    hide Surrounded, Own, Matched, NoReference, Finish, Words, Surviving, Acts, Kept, Tokens;
    var raw := RawOf(st, n);
    RemovedFinish(st, fuel, n, t, o, parts);
    if raw.Some? {
      RemovalOfWords(raw.value, t, o, parts, st.overrides);
    }
  }

  lemma NothingSurvives(words: seq<seq<string>>)
    ensures Surviving([], words) == []
  {
  }

  // ---- whole runs ----

  lemma SetHas(s: Flattened, overrides: seq<string>, n: Name, v: string)
    requires Longer(s.index) && NoneBefore(n, |n| + 1) && NoReference(v)
    ensures Had(FlatWriteOne(s, overrides, SetVar(n, v, false)), overrides, n, Both(Some(v)))
  {
    hide FlatWriteOne, ParseKeyword, NoneBefore, Longer, Surrounded, NoReference;
    var s' := FlatWriteOne(s, overrides, SetVar(n, v, false));
    PlainName(n);
    SetState(s, overrides, n, v);
    OnlyContent(At(s'.vars, n), v, overrides);
    NowHas(s', overrides, n, v);
  }

  lemma OnlyContent(e: Entry, v: string, overrides: seq<string>)
    requires CONTENT in e.flags && e.flags[CONTENT] == v && e.appends == e.prepends == []
    ensures Own(e) == Some(v) && Surrounded(Own(e), e, overrides) == Some(v)
  {
  }

  /** Set, appended to and prepended to, from any state. */
  lemma SetAppendPrepend(s: Flattened, overrides: seq<string>, n: Name, v: string, a: string, b: string, fuel: nat)
    requires Longer(s.index) && NoneBefore(n, |n| + 1)
    requires NoReference(b + v + a)
    ensures var ws := [SetVar(n, v, false), SetVar(n + "_append", a, false), SetVar(n + "_prepend", b, false)];
      Get(StoreOf(FlatRun(s, overrides, ws), overrides), fuel, n) == Done(Some(b + v + a))
  {
    hide FlatWriteOne, NoneBefore, Longer, NoReference, Get, Had;
    var s1 := FlatWriteOne(s, overrides, SetVar(n, v, false));
    var s2 := FlatWriteOne(s1, overrides, SetVar(n + "_append", a, false));
    PlainParts(b + v, a);
    PlainParts(b, v);
    assert b + v + a == b + (v + a);
    PlainParts(b, v + a);
    SetHas(s, overrides, n, v);
    assert n + "_append" + Behind(None) == n + "_append" && n + "_prepend" + Behind(None) == n + "_prepend";
    FirstKeyword(n, "_append");
    FirstKeyword(n, "_prepend");
    AppendThenGet(s1, overrides, n, None, [], a, false, Both(Some(v)), fuel);
    PrependThenGet(s2, overrides, n, None, [], b, false, Both(Some(v + a)), fuel);
    ThreeWrites(s, overrides, SetVar(n, v, false), SetVar(n + "_append", a, false), SetVar(n + "_prepend", b, false));
  }

  lemma ThreeWrites(s: Flattened, overrides: seq<string>, w1: Write, w2: Write, w3: Write)
    ensures FlatRun(s, overrides, [w1, w2, w3]) ==
            FlatWriteOne(FlatWriteOne(FlatWriteOne(s, overrides, w1), overrides, w2), overrides, w3)
  {
    hide FlatWriteOne;
    assert [w1, w2, w3][..2] == [w1, w2] && [w1, w2][..1] == [w1] && [w1][..0] == [];
    assert FlatRun(s, overrides, [w1]) == FlatWriteOne(s, overrides, w1);
    assert FlatRun(s, overrides, [w1, w2]) == FlatWriteOne(FlatRun(s, overrides, [w1]), overrides, w2);
  }

  // ---- flags ----

  lemma KeywordsDiffer()
    ensures "_append" != "_prepend" && "_append" != "_remove" && "_prepend" != "_remove"
  {
    assert "_append"[1] != "_prepend"[1] && "_append"[1] != "_remove"[1] && "_prepend"[1] != "_remove"[1];
  }

  /** Deleting the flag of a keyword takes the operations of that kind and nothing else. */
  lemma OperationsDropped(s: Flattened, overrides: seq<string>, n: Name)
    ensures var e := At(s.vars, n);
      && At(FlatWriteOne(s, overrides, DelVarFlag(n, "_append")).vars, n) == e.(appends := [])
      && At(FlatWriteOne(s, overrides, DelVarFlag(n, "_prepend")).vars, n) == e.(prepends := [])
      && At(FlatWriteOne(s, overrides, DelVarFlag(n, "_remove")).vars, n) == e.(removes := [])
  {
    KeywordsDiffer();
  }

  /** A flag that was set reads as its value, and one that was deleted has none. */
  lemma FlagThenRead(s: Flattened, overrides: seq<string>, n: Name, flag: Flag, value: string, fuel: nat)
    requires flag !in ["", "_content", "_append", "_prepend", "_remove"] && NoReference(value)
    ensures ReadAt(StoreOf(FlatWriteOne(s, overrides, SetVarFlag(n, flag, value)), overrides), fuel, n, flag) == Done(Some(value))
    ensures ReadAt(StoreOf(FlatWriteOne(s, overrides, DelVarFlag(n, flag)), overrides), fuel, n, flag) == Done(None)
  {
    hide UpdateOverrides, ExpandAll, NoReference, HasOpening;
    OpeningMeans(value);
    NoOpening(StoreOf(FlatWriteOne(s, overrides, SetVarFlag(n, flag, value)), overrides), fuel, value, CacheKey(n, flag));
  }

  /** And no other variable or flag is touched. */
  lemma FlagElsewhere(s: Flattened, overrides: seq<string>, n: Name, flag: Flag, value: string, m: Name, other: Flag)
    requires m != n || other != flag
    ensures var e, e' := At(s.vars, m), At(FlatWriteOne(s, overrides, SetVarFlag(n, flag, value)).vars, m);
      && (other in e'.flags <==> other in e.flags) && (other in e.flags ==> e'.flags[other] == e.flags[other])
      && e'.appends == e.appends && e'.prepends == e.prepends && e'.removes == e.removes
  {
    hide UpdateOverrides;
  }
}
