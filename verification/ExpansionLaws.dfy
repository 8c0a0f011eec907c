/** What evaluation means for the operations: a plain setting wins, appended and prepended texts land at
    the ends, removed words and only they go. */
module ExpansionLaws {
  import opened DataStore
  import opened Options
  import opened Sequences
  import opened Strings
  import opened OverrideChoice
  import opened Expansion
  import opened StoreWrites

  ghost function StoreOf(s: Flattened, overrides: seq<string>): Store {
    Store(s.vars, s.index, overrides)
  }

  // ---- setting and deleting ----

  lemma {:induction false} AddSplitsKeys(index: Index, name: Name, i: nat)
    requires i < |name|
    ensures forall b :: b in AddSplits(index, name, i) ==> b in index || |b| < |name|
    decreases i
  {
    if LooksLikeOverride(name[i + 1..]) {
      var index' := AddPair(index, name[..i], name, name[i + 1..]);
      var j := LastUnderscore(name[..i]);
      if j > 0 {
        AddSplitsKeys(index', name, j);
      }
    }
  }

  lemma NoOpening(st: Store, fuel: nat, s: string, self: Name)
    requires !HasOpening(s)
    ensures ExpandAll(st, fuel, s, self) == Done(s)
  {
  }

  /** What setVar leaves for its variable. */
  lemma SetState(s: Flattened, overrides: seq<string>, n: Name, value: string)
    requires Longer(s.index) && ParseKeyword(n, 0).None?
    ensures var s' := FlatWriteOne(s, overrides, SetVar(n, value, false));
      n !in s'.index && At(s'.vars, n) == Entry(At(s.vars, n).flags[CONTENT := value], [], [], [])
  {
    hide FlatWriteOne, ParseKeyword, Displaced, Longer, UpdateOverrides;
    ContentWritten(s, overrides, n, value);
    if '_' in n {
      UpdateStarts(Displaced(s, n, overrides).index - {n}, n);
      AddSplitsKeys(Displaced(s, n, overrides).index - {n}, n, LastUnderscore(n));
    }
  }

  /** Whatever operations and conditional variables there were: after setVar the unexpanded value is the
      given one, and without references in it so is the expanded one. */
  lemma SetThenGet(s: Flattened, overrides: seq<string>, n: Name, value: string, fuel: nat, expand: bool)
    requires Longer(s.index) && ParseKeyword(n, 0).None?
    ensures var r := Eval(StoreOf(FlatWriteOne(s, overrides, SetVar(n, value, false)), overrides), fuel, n, expand);
      && (r.Done? ==> r.value.raw == Some(value))
      && (!HasOpening(value) ==> r == Done(Parsed(Some(value), Some(value), [])))
  {
    hide FlatWriteOne, ParseKeyword, ExpandAll, HasOpening, Longer;
    var st := StoreOf(FlatWriteOne(s, overrides, SetVar(n, value, false)), overrides);
    SetState(s, overrides, n, value);
    if !HasOpening(value) {
      NoOpening(st, fuel, value, n);
      assert AddNew([], Texts([], overrides)) == [];
      assert ExpandEach(st, fuel, []) == Done([]);
    }
  }

  // ---- setting a conditional variable ----

  lemma FiledUnder(base: Name, o: string)
    requires LooksLikeOverride(o) && '_' !in o
    ensures (base, o) in FiledSplits(base + "_" + o)
  {
    var n := base + "_" + o;
    assert n[|base|] == '_' && n[|base| + 1..] == o && n[..|base|] == base;
    LastUnderscoreAt(n, |base|);
  }

  lemma {:induction false} LastUnderscoreAt(s: string, k: nat)
    requires k < |s| && s[k] == '_' && '_' !in s[k + 1..]
    ensures LastUnderscore(s) == k
  {
    if k < |s| - 1 {
      var init := s[..|s| - 1];
      assert s[k + 1..] == init[k + 1..] + [s[|s| - 1]];
      LastUnderscoreAt(init, k);
    }
  }

  /** The one that is last in OVERRIDES, among those that are listed. */
  lemma SelectsThis(base: Name, o: string, pairs: seq<(Name, string)>, overrides: seq<string>)
    requires forall p: (Name, string) :: p in pairs ==> p.0 == base + "_" + p.1
    requires forall p: (Name, string) :: p in pairs && InForce(p.1, overrides) ==> '_' !in p.1
    requires NoDuplicates(overrides) && o in overrides && (base + "_" + o, o) in pairs
    requires forall i, j :: 0 <= i < j < |overrides| && overrides[i] == o ==> (base + "_" + overrides[j], overrides[j]) !in pairs
    ensures Select(pairs, overrides) == Some(base + "_" + o)
  {
    hide Select, InForce;
    SelectsLastOverride(base, pairs, overrides);
    var i :| 0 <= i < |overrides|
             && Select(pairs, overrides) == Some(base + "_" + overrides[i])
             && (base + "_" + overrides[i], overrides[i]) in pairs
             && forall j :: i < j < |overrides| ==> (base + "_" + overrides[j], overrides[j]) !in pairs;
    var k :| 0 <= k < |overrides| && overrides[k] == o;
    assert i == k;
  }

  /** What setVar(base_o, value) makes evaluation select for base, when no name behind o in OVERRIDES is
      listed for base and no override with several parts is. */
  lemma OverrideThenSelect(s: Flattened, overrides: seq<string>, base: Name, o: string, value: string)
    requires Spelled(s.index) && NoDuplicates(overrides) && o in overrides
    requires LooksLikeOverride(o) && '_' !in o && ParseKeyword(base + "_" + o, 0).None?
    requires forall p :: Lists(s.index, base, p) && InForce(p.1, overrides) ==> '_' !in p.1
    requires forall i, j :: 0 <= i < j < |overrides| && overrides[i] == o ==>
               !Lists(s.index, base, (base + "_" + overrides[j], overrides[j]))
    ensures var n := base + "_" + o;
      Matched(StoreOf(FlatWriteOne(s, overrides, SetVar(n, value, false)), overrides), base) == Some(n)
  {
    hide ParseKeyword, FlatWriteOne, FiledSplits, Select, InForce;
    var n := base + "_" + o;
    var after := FlatWriteOne(s, overrides, SetVar(n, value, false)).index;
    ContentLists(s, overrides, n, value);
    FlatWriteSpelled(s, overrides, SetVar(n, value, false));
    FiledUnder(base, o);
    assert n[|base|] == '_';
    assert Lists(after, base, (n, o));
    forall p | p in after[base] ensures Lists(s.index, base, p) || p == (n, o) {
      assert Lists(after, base, p);
      if p.0 == n {
        assert p.1 == n[|base| + 1..];
      }
    }
    forall i, j | 0 <= i < j < |overrides| && overrides[i] == o
      ensures (base + "_" + overrides[j], overrides[j]) !in after[base]
    {
      assert overrides[j] != o;
    }
    SelectsThis(base, o, after[base], overrides);
  }

  /** From the write to the value: after setVar(base_o, value), getVar(base) is that value with the
      operations of base around it, and without operations and references the value itself. */
  lemma OverrideThenGet(s: Flattened, overrides: seq<string>, base: Name, o: string, value: string, fuel: nat, expand: bool)
    requires Longer(s.index) && Spelled(s.index) && NoDuplicates(overrides) && o in overrides
    requires LooksLikeOverride(o) && '_' !in o && ParseKeyword(base + "_" + o, 0).None?
    requires forall p :: Lists(s.index, base, p) && InForce(p.1, overrides) ==> '_' !in p.1
    requires forall i, j :: 0 <= i < j < |overrides| && overrides[i] == o ==>
               !Lists(s.index, base, (base + "_" + overrides[j], overrides[j]))
    requires fuel > 0
    ensures var e := At(s.vars, base);
      var r := Eval(StoreOf(FlatWriteOne(s, overrides, SetVar(base + "_" + o, value, false)), overrides), fuel, base, expand);
      && (r.Done? ==> r.value.raw == Surrounded(Some(value), e, overrides))
      && (!HasOpening(value) && e.appends == e.prepends == e.removes == [] ==> r == Done(Parsed(Some(value), Some(value), [])))
  {
    hide ParseKeyword, FlatWriteOne, HasOpening, ExpandAll, InForce, Select, Surrounded;
    var n := base + "_" + o;
    var st := StoreOf(FlatWriteOne(s, overrides, SetVar(n, value, false)), overrides);
    OverrideThenSelect(s, overrides, base, o, value);
    ContentKeeps(s, overrides, n, value, base);
    SetThenGet(s, overrides, n, value, fuel - 1, false);
    TakenOver(st, fuel, base, expand, n, value);
  }

  /** The value of the selected variable, taken over. */
  lemma TakenOver(st: Store, fuel: nat, base: Name, expand: bool, n: Name, value: string)
    requires fuel > 0 && Matched(st, base) == Some(n)
    requires var p := Eval(st, fuel - 1, n, false);
      && (p.Done? ==> p.value.raw == Some(value))
      && (!HasOpening(value) ==> p == Done(Parsed(Some(value), Some(value), [])))
    ensures var e, r := At(st.vars, base), Eval(st, fuel, base, expand);
      && (r.Done? ==> r.value.raw == Surrounded(Some(value), e, st.overrides))
      && (!HasOpening(value) && e.appends == e.prepends == e.removes == [] ==> r == Done(Parsed(Some(value), Some(value), [])))
  {
    hide ExpandAll, HasOpening, Matched;
    if !HasOpening(value) {
      NoOpening(st, fuel, value, base);
      assert AddNew([], Texts([], st.overrides)) == [];
      assert ExpandEach(st, fuel, []) == Done([]);
    }
  }

  /** After delVar there is no value, also not from a conditional variable. */
  lemma DeleteThenGet(s: Flattened, overrides: seq<string>, n: Name, fuel: nat, expand: bool)
    ensures Eval(StoreOf(FlatDel(s, n), overrides), fuel, n, expand) == Done(Parsed(None, None, []))
  {
    ForgetOverridesKeys(s.index, n);
    var st := StoreOf(FlatDel(s, n), overrides);
    assert n !in st.index && At(st.vars, n) == EMPTY;
    assert Surrounded(None, EMPTY, overrides) == None;
  }

  // ---- where operations land ----

  lemma {:induction false} TextsSplit(ops: seq<Op>, op: Op, overrides: seq<string>)
    ensures Texts(ops + [op], overrides) == Texts(ops, overrides) + if Applies(op, overrides) then [op.text] else []
  {
    if ops == [] {
      assert [] + [op] == [op];
      assert [op][1..] == [];
    } else {
      assert (ops + [op])[1..] == ops[1..] + [op] && (ops + [op])[0] == ops[0];
      TextsSplit(ops[1..], op, overrides);
      var head := if Applies(ops[0], overrides) then [ops[0].text] else [];
      var last := if Applies(op, overrides) then [op.text] else [];
      assert head + (Texts(ops[1..], overrides) + last) == (head + Texts(ops[1..], overrides)) + last;
    }
  }

  lemma {:induction false} AppendAllLast(value: string, texts: seq<string>, last: string)
    ensures AppendAll(value, texts + [last]) == AppendAll(value, texts) + last
    decreases |texts|
  {
    if texts == [] {
      assert [] + [last] == [last];
      assert [last][1..] == [];
    } else {
      assert (texts + [last])[1..] == texts[1..] + [last];
      AppendAllLast(value + texts[0], texts[1..], last);
    }
  }

  lemma {:induction false} PrependAllLast(value: string, texts: seq<string>, last: string)
    ensures PrependAll(value, texts + [last]) == last + PrependAll(value, texts)
    decreases |texts|
  {
    if texts == [] {
      assert [] + [last] == [last];
      assert [last][1..] == [];
    } else {
      assert (texts + [last])[1..] == texts[1..] + [last];
      PrependAllLast(texts[0] + value, texts[1..], last);
    }
  }

  lemma {:induction false} PrependAllTail(value: string, tail: string, texts: seq<string>)
    ensures PrependAll(value + tail, texts) == PrependAll(value, texts) + tail
    decreases |texts|
  {
    if texts != [] {
      assert texts[0] + (value + tail) == (texts[0] + value) + tail;
      PrependAllTail(texts[0] + value, tail, texts[1..]);
    }
  }

  ghost function TextIf(op: Op, overrides: seq<string>): string {
    if Applies(op, overrides) then op.text else ""
  }

  /** One more append lands at the very end, behind everything prepended or appended before, and makes an
      unset variable a set one even when its override is not in force. */
  lemma AppendLandsLast(value: Option<string>, e: Entry, op: Op, overrides: seq<string>)
    ensures Surrounded(value, e.WithOps(Append, e.appends + [op]), overrides) ==
            Some(OrEmpty(Surrounded(value, e, overrides)) + TextIf(op, overrides))
  {
    var v := OrEmpty(value);
    var texts, more := Texts(e.appends, overrides), Texts(e.appends + [op], overrides);
    TextsSplit(e.appends, op, overrides);
    assert AppendAll(v, more) == AppendAll(v, texts) + TextIf(op, overrides) by {
      if Applies(op, overrides) {
        AppendAllLast(v, texts, op.text);
      } else {
        assert texts + [] == texts;
      }
    }
    var before := if e.appends == [] then v else AppendAll(v, texts);
    assert e.appends == [] ==> texts == [] && AppendAll(v, texts) == v;
    PrependAllTail(before, TextIf(op, overrides), Texts(e.prepends, overrides));
    hide Texts, AppendAll, PrependAll, Applies;
  }

  /** One more prepend lands at the very front. */
  lemma PrependLandsFirst(value: Option<string>, e: Entry, op: Op, overrides: seq<string>)
    ensures Surrounded(value, e.WithOps(Prepend, e.prepends + [op]), overrides) ==
            Some(TextIf(op, overrides) + OrEmpty(Surrounded(value, e, overrides)))
  {
    var v := OrEmpty(if e.appends == [] then value else Some(AppendAll(OrEmpty(value), Texts(e.appends, overrides))));
    var texts, more := Texts(e.prepends, overrides), Texts(e.prepends + [op], overrides);
    TextsSplit(e.prepends, op, overrides);
    assert PrependAll(v, more) == TextIf(op, overrides) + PrependAll(v, texts) by {
      if Applies(op, overrides) {
        PrependAllLast(v, texts, op.text);
      } else {
        assert texts + [] == texts;
      }
    }
    assert e.prepends == [] ==> texts == [] && PrependAll(v, texts) == v;
    hide Texts, AppendAll, PrependAll, Applies;
  }

  // ---- what removals leave ----

  predicate Solid(w: string) {
    forall c :: c in w ==> !Space(c)
  }

  /** The words that no removal names. */
  function Surviving(ws: seq<string>, words: seq<seq<string>>): seq<string> {
    if ws == [] then []
    else (if Dropped(ws[0], words) then [] else [ws[0]]) + Surviving(ws[1..], words)
  }

  /** Words and single white-space characters in turn, words at both ends. */
  ghost predicate Alternating(tokens: seq<string>)
    decreases |tokens|
  {
    && tokens != [] && Solid(tokens[0])
    && (|tokens| > 1 ==> |tokens| > 2 && |tokens[1]| == 1 && Space(tokens[1][0]) && Alternating(tokens[2..]))
  }

  lemma {:induction false} TokensAlternate(s: string)
    ensures Alternating(Tokens(s))
    ensures Tokens(s) != [] && Split1(s) == Evens(Tokens(s))
  {
    if s != "" {
      TokensAlternate(s[1..]);
      var r := Tokens(s[1..]);
      if Space(s[0]) {
        var t := ["", [s[0]]] + r;
        assert t[2..] == r;
        assert Evens(t) == [t[0]] + Evens(r);
      } else {
        var t := [[s[0]] + r[0]] + r[1..];
        assert |r| > 1 ==> t[2..] == r[2..];
        if |r| > 1 {
          assert Evens(r) == [r[0]] + Evens(r[2..]);
          assert Evens(t) == [t[0]] + Evens(t[2..]);
          assert t[0] == [s[0]] + r[0];
          assert Evens(r)[1..] == Evens(r[2..]);
        } else {
          assert t == [[s[0]] + r[0]] && Evens(r)[1..] == [];
        }
      }
    }
  }

  /** The tokens at even places. */
  function Evens(tokens: seq<string>): seq<string>
    requires tokens != []
    decreases |tokens|
  {
    if |tokens| <= 2 then [tokens[0]] else [tokens[0]] + Evens(tokens[2..])
  }

  lemma {:induction false} CutSolid(w: string)
    requires Solid(w)
    ensures Split1(w) == [w]
  {
    if w != "" {
      assert w[0] in w;
      CutSolid(w[1..]);
      assert w == [w[0]] + w[1..];
    }
  }

  lemma {:induction false} CutAtSpace(w: string, c: char, rest: string)
    requires Solid(w) && Space(c)
    ensures Split1(w + [c] + rest) == [w] + Split1(rest)
  {
    var s := w + [c] + rest;
    if w == "" {
      assert s[1..] == rest;
    } else {
      assert w[0] in w;
      assert s[1..] == w[1..] + [c] + rest;
      CutAtSpace(w[1..], c, rest);
      var r := [w[1..]] + Split1(rest);
      assert r[0] == w[1..] && r[1..] == Split1(rest) && w == [w[0]] + w[1..];
    }
  }

  lemma {:induction false} NonEmptyCons(w: string, ws: seq<string>)
    ensures NonEmpty([w] + ws) == (if w == "" then [] else [w]) + NonEmpty(ws)
  {
    assert ([w] + ws)[1..] == ws;
  }

  lemma {:induction false} SurvivingCons(w: string, ws: seq<string>, words: seq<seq<string>>)
    ensures Surviving([w] + ws, words) == (if Dropped(w, words) then [] else [w]) + Surviving(ws, words)
  {
    assert ([w] + ws)[1..] == ws;
  }

  lemma KeptCons(tokens: seq<string>, words: seq<seq<string>>)
    requires |tokens| > 2 && !Dropped(tokens[1], words)
    ensures Kept(tokens, words) == (if Dropped(tokens[0], words) then "" else tokens[0]) + tokens[1] + Kept(tokens[2..], words)
  {
    assert tokens[1..][1..] == tokens[2..];
    assert Kept(tokens[1..], words) == tokens[1] + Kept(tokens[2..], words);
  }

  lemma {:induction false} KeptTokens(tokens: seq<string>, words: seq<seq<string>>)
    requires Alternating(tokens)
    requires forall i :: 0 <= i < |words| ==> forall w :: w in words[i] ==> w != "" && Solid(w)
    ensures NonEmpty(Split1(Kept(tokens, words))) == Surviving(NonEmpty(Evens(tokens)), words)
    decreases |tokens|
  {
    var w := tokens[0];
    var left := if Dropped(w, words) then "" else w;
    assert !Dropped("", words);
    NonEmptyCons(left, []);
    NonEmptyCons(w, []);
    SurvivingCons(w, [], words);
    if |tokens| == 1 {
      assert tokens[1..] == [];
      assert Kept(tokens, words) == left + "" == left;
      CutSolid(left);
    } else {
      var c := tokens[1][0];
      assert |tokens| > 2 && Evens(tokens) == [w] + Evens(tokens[2..]);
      assert tokens[1] == [c] && !Dropped(tokens[1], words) by {
        assert c in tokens[1];
      }
      var rest := Kept(tokens[2..], words);
      KeptCons(tokens, words);
      CutAtSpace(left, c, rest);
      KeptTokens(tokens[2..], words);
      NonEmptyCons(left, Split1(rest));
      NonEmptyCons(w, Evens(tokens[2..]));
      SurvivingCons(w, NonEmpty(Evens(tokens[2..])), words);
      hide Split1, Kept, NonEmpty, Surviving, Dropped, Alternating;
      assert Kept(tokens, words) == left + [c] + rest;
      var tail := NonEmpty(Evens(tokens[2..]));
      assert NonEmpty(Split1(Kept(tokens, words))) == (if left == "" then [] else [left]) + Surviving(tail, words);
      assert w == "" ==> [] + tail == tail;
      assert [] + Surviving(tail, words) == Surviving(tail, words);
    }
  }

  lemma {:induction false} CutsSolid(s: string)
    ensures forall w :: w in Split1(s) ==> Solid(w)
  {
    if s != "" {
      CutsSolid(s[1..]);
      var r := Split1(s[1..]);
      assert r[0] in r;
    }
  }

  lemma {:induction false} NonEmptySubset(ws: seq<string>)
    ensures forall w :: w in NonEmpty(ws) ==> w in ws && w != ""
  {
    if ws != [] {
      NonEmptySubset(ws[1..]);
    }
  }

  /** The words left by removals are the words of the value that none of the removal texts contains, in
      the same order. */
  lemma RemovalsLeave(x: string, removals: seq<string>)
    ensures var words := seq(|removals|, i requires 0 <= i < |removals| => Words(removals[i]));
      Words(Kept(Tokens(x), words)) == Surviving(Words(x), words)
  {
    var words := seq(|removals|, i requires 0 <= i < |removals| => Words(removals[i]));
    forall i | 0 <= i < |words| ensures forall w :: w in words[i] ==> w != "" && Solid(w) {
      WordsSolid(removals[i]);
    }
    TokensAlternate(x);
    KeptTokens(Tokens(x), words);
  }

  // ---- words, spelled out ----

  ghost predicate Blank(gap: string) {
    forall c :: c in gap ==> c in [' ', '\t', '\n', '\r', '\U{000b}', '\U{000c}']
  }

  ghost predicate Word(w: string) {
    w != "" && forall c :: c in w ==> c !in [' ', '\t', '\n', '\r', '\U{000b}', '\U{000c}']
  }

  /** Words with white space behind each. */
  ghost function Spaced(ws: seq<string>, gaps: seq<string>): string
    requires |ws| == |gaps|
  {
    if ws == [] then "" else ws[0] + gaps[0] + Spaced(ws[1..], gaps[1..])
  }

  lemma {:induction false} GapSkipped(gap: string, rest: string)
    requires Blank(gap)
    ensures Words(gap + rest) == Words(rest)
  {
    if gap == "" {
      assert gap + rest == rest;
    } else {
      assert gap[0] in gap && (gap + rest)[1..] == gap[1..] + rest;
      GapSkipped(gap[1..], rest);
      NonEmptyCons("", Split1(gap[1..] + rest));
    }
  }

  lemma WordTaken(w: string, gap: string, rest: string)
    requires Word(w) && Blank(gap) && (gap != "" || rest == "")
    ensures Words(w + gap + rest) == [w] + Words(rest)
  {
    if gap == "" {
      assert w + gap + rest == w;
      CutSolid(w);
      NonEmptyCons(w, []);
      assert [""][1..] == [];
    } else {
      assert gap[0] in gap && w + gap + rest == w + [gap[0]] + (gap[1..] + rest);
      CutAtSpace(w, gap[0], gap[1..] + rest);
      GapSkipped(gap[1..], rest);
      NonEmptyCons(w, Split1(gap[1..] + rest));
    }
  }

  /** The words of a text are the pieces between runs of white space, wherever there is any. */
  lemma {:induction false} WordsOf(first: string, ws: seq<string>, gaps: seq<string>)
    requires |ws| == |gaps| && Blank(first)
    requires forall i :: 0 <= i < |ws| ==> Word(ws[i]) && Blank(gaps[i]) && (i < |ws| - 1 ==> gaps[i] != "")
    ensures Words(first + Spaced(ws, gaps)) == ws
    decreases |ws|
  {
    hide Words, Word, Blank;
    GapSkipped(first, Spaced(ws, gaps));
    if ws == [] {
      NoWords();
    } else {
      WordTaken(ws[0], gaps[0], Spaced(ws[1..], gaps[1..]));
      NothingBlank();
      WordsOf("", ws[1..], gaps[1..]);
      assert "" + Spaced(ws[1..], gaps[1..]) == Spaced(ws[1..], gaps[1..]);
      assert ws == [ws[0]] + ws[1..];
    }
  }

  lemma NoWords()
    ensures Words("") == []
  {
    assert Split1("") == [""] && [""][1..] == [] && NonEmpty([]) == [];
  }

  lemma NothingBlank()
    ensures Blank("")
  {
  }

  // ---- a removal that matches nothing ----

  ghost function Concatenated(tokens: seq<string>): string {
    if tokens == [] then "" else tokens[0] + Concatenated(tokens[1..])
  }

  lemma {:induction false} TokensJoin(s: string)
    ensures Concatenated(Tokens(s)) == s
  {
    if s != "" {
      TokensJoin(s[1..]);
      var r := Tokens(s[1..]);
      if Space(s[0]) {
        var t := ["", [s[0]]] + r;
        assert t[1..] == [[s[0]]] + r && t[1..][1..] == r;
        assert Concatenated(t[1..]) == [s[0]] + Concatenated(r);
      } else {
        var t := [[s[0]] + r[0]] + r[1..];
        assert t[1..] == r[1..];
      }
    } else {
      assert [""][1..] == [];
    }
  }

  lemma {:induction false} AllKept(tokens: seq<string>, words: seq<seq<string>>)
    requires forall t :: t in tokens ==> !Dropped(t, words)
    ensures Kept(tokens, words) == Concatenated(tokens)
  {
    if tokens != [] {
      AllKept(tokens[1..], words);
    }
  }

  lemma {:induction false} TokenKinds(tokens: seq<string>)
    requires Alternating(tokens)
    ensures forall t :: t in tokens ==> t in Evens(tokens) || (|t| == 1 && Space(t[0]))
    decreases |tokens|
  {
    if |tokens| > 1 {
      TokenKinds(tokens[2..]);
      assert tokens == [tokens[0], tokens[1]] + tokens[2..];
    }
  }

  lemma {:induction false} NonEmptyHas(ws: seq<string>)
    ensures forall w :: w in ws && w != "" ==> w in NonEmpty(ws)
  {
    if ws != [] {
      NonEmptyHas(ws[1..]);
      assert ws == [ws[0]] + ws[1..];
    }
  }

  lemma TokenOf(x: string, t: string)
    requires t in Tokens(x)
    ensures t == "" || t in Words(x) || (|t| == 1 && Space(t[0]))
  {
    hide Tokens, Split1, NonEmpty, Space, Evens, Alternating;
    TokensAlternate(x);
    TokenKinds(Tokens(x));
    NonEmptyHas(Split1(x));
  }

  lemma WordsSolid(s: string)
    ensures forall w :: w in Words(s) ==> w != "" && Solid(w)
  {
    hide Split1, NonEmpty;
    CutsSolid(s);
    NonEmptySubset(Split1(s));
  }

  lemma TokenStays(x: string, removal: string, t: string)
    requires t in Tokens(x) && forall w :: w in Words(removal) ==> w !in Words(x)
    ensures t !in Words(removal)
  {
    hide Tokens, Words, Space;
    TokenOf(x, t);
    WordsSolid(removal);
    assert |t| == 1 ==> t[0] in t;
  }

  /** When no word of the value is named, the value stays as it is, white space included. */
  lemma NothingToRemove(x: string, removals: seq<string>)
    requires forall i, w :: 0 <= i < |removals| && w in Words(removals[i]) ==> w !in Words(x)
    ensures Kept(Tokens(x), seq(|removals|, i requires 0 <= i < |removals| => Words(removals[i]))) == x
  {
    hide Tokens, Words, Kept;
    var words := seq(|removals|, i requires 0 <= i < |removals| => Words(removals[i]));
    forall t | t in Tokens(x) ensures !Dropped(t, words) {
      forall i | 0 <= i < |words| ensures t !in words[i] {
        TokenStays(x, removals[i], t);
      }
    }
    AllKept(Tokens(x), words);
    TokensJoin(x);
  }
}
