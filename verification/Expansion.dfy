/** What a variable evaluates to: overrides, operations, `${...}` references and removals, without any cache. */
module Expansion {
  import opened DataStore
  import opened Options
  import opened Strings
  import opened OverrideChoice

  /** What evaluation can read: the flat map of variables, the override index and the resolved OVERRIDES. */
  datatype Store = Store(vars: Vars, index: Index, overrides: seq<string>)

  /** Evaluation up to a bound on its depth: not finished within the bound, a self reference, or a result. */
  datatype Outcome<+T> = Unfinished | Failed | Done(value: T)

  /** The unexpanded value, the expanded value after removals, and the removals that matched a word. */
  datatype Parsed = Parsed(raw: Option<string>, expanded: Option<string>, removed: seq<string>)

  // ---- pieces ----

  /** The override condition of one operation: absent or empty, or every part of it in OVERRIDES. */
  predicate Applies(op: Op, overrides: seq<string>) {
    op.override.None? || op.override.value == "" || forall part :: part in Split(op.override.value, '_') ==> part in overrides
  }

  /** The texts of the operations that apply. */
  function Texts(ops: seq<Op>, overrides: seq<string>): seq<string> {
    if ops == [] then []
    else (if Applies(ops[0], overrides) then [ops[0].text] else []) + Texts(ops[1..], overrides)
  }

  function AppendAll(value: string, texts: seq<string>): string
    decreases |texts|
  {
    if texts == [] then value else AppendAll(value + texts[0], texts[1..])
  }

  function PrependAll(value: string, texts: seq<string>): string
    decreases |texts|
  {
    if texts == [] then value else PrependAll(texts[0] + value, texts[1..])
  }

  function OrEmpty(value: Option<string>): string {
    match value
    case None => ""
    case Some(v) => v
  }

  /** The value with the operations of the entry put around it. */
  function Surrounded(value: Option<string>, e: Entry, overrides: seq<string>): Option<string> {
    var v1 := if e.appends == [] then value else Some(AppendAll(OrEmpty(value), Texts(e.appends, overrides)));
    if e.prepends == [] then v1 else Some(PrependAll(OrEmpty(v1), Texts(e.prepends, overrides)))
  }

  function Own(e: Entry): Option<string> {
    if CONTENT in e.flags then Some(e.flags[CONTENT])
    else if DEFAULTVAL in e.flags then Some(e.flags[DEFAULTVAL])
    else None
  }

  function Matched(st: Store, n: Name): Option<Name> {
    if n in st.index && Select(st.index[n], st.overrides) != Some("") then Select(st.index[n], st.overrides) else None
  }

  predicate KeyChar(c: char) {
    'a' <= c <= 'z' || 'A' <= c <= 'Z' || '0' <= c <= '9' || c in "-_+./~"
  }

  /** How many key characters s starts with. */
  function KeyLength(s: string): (n: nat)
    ensures n <= |s|
  {
    if s != "" && KeyChar(s[0]) then 1 + KeyLength(s[1..]) else 0
  }

  /** Length of the `${key}` reference s starts with, or 0. */
  function RefLength(s: string): (n: nat)
    ensures n <= |s| && (n == 0 || n >= 4)
  {
    if |s| < 4 || s[0] != '$' || s[1] != '{' then 0
    else
      var k := KeyLength(s[2..]);
      if k > 0 && 2 + k < |s| && s[2 + k] == '}' then k + 3 else 0
  }

  predicate HasOpening(s: string) {
    exists i :: 0 <= i < |s| - 1 && s[i] == '$' && s[i + 1] == '{'
  }

  predicate Space(c: char) {
    c == ' ' || c == '\t' || c == '\n' || c == '\r' || c == 0x0b as char || c == 0x0c as char
  }

  /** re.split(r'(\s)'): the words and, between them, the single white-space characters. */
  function Tokens(s: string): (r: seq<string>)
    ensures r != []
  {
    if s == "" then [""]
    else
      var r := Tokens(s[1..]);
      if Space(s[0]) then ["", [s[0]]] + r else [[s[0]] + r[0]] + r[1..]
  }

  /** s.split(): the words. */
  function Words(s: string): (r: seq<string>)
    ensures "" !in r
  {
    NonEmpty(Split1(s))
  }

  /** Cuts at every white-space character. */
  function Split1(s: string): (r: seq<string>)
    ensures r != []
  {
    if s == "" then [""]
    else
      var r := Split1(s[1..]);
      if Space(s[0]) then [""] + r else [[s[0]] + r[0]] + r[1..]
  }

  function NonEmpty(ws: seq<string>): (r: seq<string>)
    ensures "" !in r
  {
    if ws == [] then []
    else (if ws[0] == "" then [] else [ws[0]]) + NonEmpty(ws[1..])
  }

  predicate Dropped(token: string, words: seq<seq<string>>) {
    exists i :: 0 <= i < |words| && token in words[i]
  }

  /** The tokens that no removal names, concatenated. */
  function Kept(tokens: seq<string>, words: seq<seq<string>>): string {
    if tokens == [] then ""
    else (if Dropped(tokens[0], words) then "" else tokens[0]) + Kept(tokens[1..], words)
  }

  /** The removals one of whose words is a token. */
  function Used(removes: seq<string>, words: seq<seq<string>>, tokens: seq<string>): seq<string>
    requires |removes| == |words|
  {
    if removes == [] then []
    else
      (if exists t :: t in tokens && t in words[0] then [removes[0]] else []) + Used(removes[1..], words[1..], tokens)
  }

  /** Adds the texts that are not there yet. */
  function AddNew(have: seq<string>, texts: seq<string>): seq<string>
    decreases |texts|
  {
    if texts == [] then have
    else AddNew(if texts[0] in have then have else have + [texts[0]], texts[1..])
  }

  /** The value and removals evaluation goes on with: the selected variable's, else the own value. */
  function From(e: Entry, p: Parsed): Parsed {
    if p.raw.Some? then p else p.(raw := Own(e))
  }

  /** What comes of the expanded value and of the words of the removals. */
  function Concluded(raw: string, x: string, removes: seq<string>, words: seq<seq<string>>): Parsed
    requires |removes| == |words|
  {
    Parsed(Some(raw), Some(if removes == [] then x else Kept(Tokens(x), words)), Used(removes, words, Tokens(x)))
  }

  // ---- evaluation ----

  /** getVarFlag(n, "_content") with a parser. Without expand (the call for the variable an override
      selects) the removals are looked at when the unexpanded value is not empty, with expand when the
      expanded one is not. */
  function Eval(st: Store, fuel: nat, n: Name, expand: bool): Outcome<Parsed>
    decreases fuel, 2, 0
  {
    var e := At(st.vars, n);
    match Matched(st, n)
    case None => Finish(st, fuel, n, expand, Parsed(Own(e), None, []))
    case Some(m) =>
      if fuel == 0 then Unfinished
      else
        match Eval(st, fuel - 1, m, false)
        case Unfinished => Unfinished
        case Failed => Failed
        case Done(p) => Finish(st, fuel, n, expand, From(e, p))
  }

  /** From the value and removals taken over from the selected variable to the result. */
  function Finish(st: Store, fuel: nat, n: Name, expand: bool, from: Parsed): Outcome<Parsed>
    decreases fuel, 1, 1
  {
    var e := At(st.vars, n);
    var raw := Surrounded(from.raw, e, st.overrides);
    if raw.None? then Done(Parsed(None, None, []))
    else
      match ExpandAll(st, fuel, raw.value, n)
      case Unfinished => Unfinished
      case Failed => Failed
      case Done(x) =>
        if (if expand then x else raw.value) == "" then Done(Parsed(raw, Some(x), []))
        else
          var removes := AddNew(from.removed, Texts(e.removes, st.overrides));
          match ExpandEach(st, fuel, removes)
          case Unfinished => Unfinished
          case Failed => Failed
          case Done(words) => Done(Concluded(raw.value, x, removes, words))
  }

  /** Each removal expanded and cut into words. */
  function ExpandEach(st: Store, fuel: nat, removes: seq<string>): (r: Outcome<seq<seq<string>>>)
    ensures r.Done? ==> |r.value| == |removes| && forall i :: 0 <= i < |removes| ==> "" !in r.value[i]
    decreases fuel, 1, 0, |removes|
  {
    if removes == [] then Done([])
    else
      match ExpandAll(st, fuel, removes[0], "")
      case Unfinished => Unfinished
      case Failed => Failed
      case Done(x) =>
        match ExpandEach(st, fuel, removes[1..])
        case Unfinished => Unfinished
        case Failed => Failed
        case Done(rest) => Done([Words(x)] + rest)
  }

  /** expandWithRefs: substitutes until nothing changes or no opening is left. An empty name stands for
      the absent one, which is never a self reference. */
  function ExpandAll(st: Store, fuel: nat, s: string, self: Name): Outcome<string>
    decreases fuel, 1, 0, 0
  {
    if !HasOpening(s) then Done(s)
    else
      match Substitute(st, fuel, s, self)
      case Unfinished => Unfinished
      case Failed => Failed
      case Done(t) =>
        if t == s then Done(t)
        else if fuel == 0 then Unfinished
        else ExpandAll(st, fuel - 1, t, self)
  }

  /** One pass of the `${key}` substitution over the text. */
  function Substitute(st: Store, fuel: nat, s: string, self: Name): Outcome<string>
    decreases fuel, 0, |s|
  {
    if s == "" then Done("")
    else
      var n := RefLength(s);
      if n == 0 then
        match Substitute(st, fuel, s[1..], self)
        case Unfinished => Unfinished
        case Failed => Failed
        case Done(rest) => Done([s[0]] + rest)
      else if s[2..n - 1] == self then Failed
      else if fuel == 0 then Unfinished
      else
        match Eval(st, fuel - 1, s[2..n - 1], true)
        case Unfinished => Unfinished
        case Failed => Failed
        case Done(p) =>
          match Substitute(st, fuel, s[n..], self)
          case Unfinished => Unfinished
          case Failed => Failed
          case Done(rest) => Done((if p.expanded.Some? then p.expanded.value else s[..n]) + rest)
  }

  function Value(p: Outcome<Parsed>): Outcome<Option<string>> {
    match p
    case Unfinished => Unfinished
    case Failed => Failed
    case Done(v) => Done(v.expanded)
  }

  /** getVar: the expanded value only. */
  function Get(st: Store, fuel: nat, n: Name): Outcome<Option<string>> {
    Value(Eval(st, fuel, n, true))
  }

  ghost predicate Gets(st: Store, n: Name, r: Outcome<Option<string>>) {
    r != Unfinished ==> exists f: nat :: Get(st, f, n) == r
  }

  ghost predicate GetsWithin(st: Store, fuel: nat, n: Name, r: Outcome<Option<string>>) {
    Gets(st, n, r) && (Get(st, fuel, n) != Unfinished ==> r == Get(st, fuel, n))
  }

  // ---- more depth changes nothing ----

  lemma {:induction false} EvalDeeper(st: Store, f: nat, g: nat, n: Name, expand: bool)
    requires f <= g
    ensures Eval(st, f, n, expand) != Unfinished ==> Eval(st, g, n, expand) == Eval(st, f, n, expand)
    decreases f, 2, 0
  {
    var e, m := At(st.vars, n), Matched(st, n);
    if m.None? {
      FinishDeeper(st, f, g, n, expand, Parsed(Own(e), None, []));
    } else if f > 0 {
      EvalDeeper(st, f - 1, g - 1, m.value, false);
      var r := Eval(st, f - 1, m.value, false);
      if r.Done? {
        FinishDeeper(st, f, g, n, expand, From(e, r.value));
      }
    }
  }

  lemma {:induction false} FinishDeeper(st: Store, f: nat, g: nat, n: Name, expand: bool, from: Parsed)
    requires f <= g
    ensures Finish(st, f, n, expand, from) != Unfinished ==> Finish(st, g, n, expand, from) == Finish(st, f, n, expand, from)
    decreases f, 1, 1
  {
    var e := At(st.vars, n);
    var raw := Surrounded(from.raw, e, st.overrides);
    if raw.Some? {
      ExpandAllDeeper(st, f, g, raw.value, n);
      ExpandEachDeeper(st, f, g, AddNew(from.removed, Texts(e.removes, st.overrides)));
    }
  }

  lemma {:induction false} ExpandEachDeeper(st: Store, f: nat, g: nat, removes: seq<string>)
    requires f <= g
    ensures ExpandEach(st, f, removes) != Unfinished ==> ExpandEach(st, g, removes) == ExpandEach(st, f, removes)
    decreases f, 1, 0, |removes|
  {
    if removes != [] {
      ExpandAllDeeper(st, f, g, removes[0], "");
      ExpandEachDeeper(st, f, g, removes[1..]);
    }
  }

  lemma {:induction false} ExpandAllDeeper(st: Store, f: nat, g: nat, s: string, self: Name)
    requires f <= g
    ensures ExpandAll(st, f, s, self) != Unfinished ==> ExpandAll(st, g, s, self) == ExpandAll(st, f, s, self)
    decreases f, 1, 0, 0
  {
    if HasOpening(s) {
      SubstituteDeeper(st, f, g, s, self);
      var r := Substitute(st, f, s, self);
      if r.Done? && r.value != s && f > 0 {
        ExpandAllDeeper(st, f - 1, g - 1, r.value, self);
      }
    }
  }

  lemma {:induction false} SubstituteDeeper(st: Store, f: nat, g: nat, s: string, self: Name)
    requires f <= g
    ensures Substitute(st, f, s, self) != Unfinished ==> Substitute(st, g, s, self) == Substitute(st, f, s, self)
    decreases f, 0, |s|
  {
    if s != "" {
      var n := RefLength(s);
      if n == 0 {
        SubstituteDeeper(st, f, g, s[1..], self);
      } else if f > 0 {
        EvalDeeper(st, f - 1, g - 1, s[2..n - 1], true);
        SubstituteDeeper(st, f, g, s[n..], self);
      }
    }
  }

  /** What was read for a selected variable without expanding is what a later getVar of it returns. */
  lemma FinishModes(st: Store, fuel: nat, n: Name, from: Parsed)
    requires Finish(st, fuel, n, false, from).Done?
    ensures Finish(st, fuel, n, true, from) == Finish(st, fuel, n, false, from)
  {
    var e := At(st.vars, n);
    var raw := Surrounded(from.raw, e, st.overrides);
    if raw.Some? {
      var x := ExpandAll(st, fuel, raw.value, n).value;
      if raw.value != "" && x == "" {
        var removes := AddNew(from.removed, Texts(e.removes, st.overrides));
        var words := ExpandEach(st, fuel, removes).value;
        assert Tokens(x) == [""];
        assert Kept([""], words) == "" by {
          assert [""][1..] == [];
        }
        NothingUsed(removes, words);
      }
    }
  }

  lemma {:induction false} NothingUsed(removes: seq<string>, words: seq<seq<string>>)
    requires |removes| == |words|
    requires forall i :: 0 <= i < |words| ==> "" !in words[i]
    ensures Used(removes, words, [""]) == []
  {
    if removes != [] {
      NothingUsed(removes[1..], words[1..]);
    }
  }

  lemma ModesAgree(st: Store, fuel: nat, n: Name)
    requires Eval(st, fuel, n, false).Done?
    ensures Eval(st, fuel, n, true) == Eval(st, fuel, n, false)
  {
    hide Finish, Surrounded;
    var e, m := At(st.vars, n), Matched(st, n);
    if m.None? {
      FinishModes(st, fuel, n, Parsed(Own(e), None, []));
    } else if fuel > 0 {
      var p := Eval(st, fuel - 1, m.value, false).value;
      FinishModes(st, fuel, n, From(e, p));
    }
  }

  // ---- evaluation without a bound: some depth gives the outcome ----

  ghost predicate Evaluates(st: Store, n: Name, expand: bool, r: Outcome<Parsed>) {
    r != Unfinished ==> exists f: nat :: Eval(st, f, n, expand) == r
  }

  ghost predicate Finishes(st: Store, n: Name, expand: bool, from: Parsed, r: Outcome<Parsed>) {
    r != Unfinished ==> exists f: nat :: Finish(st, f, n, expand, from) == r
  }

  ghost predicate ExpandsEach(st: Store, removes: seq<string>, r: Outcome<seq<seq<string>>>) {
    r != Unfinished ==> exists f: nat :: ExpandEach(st, f, removes) == r
  }

  ghost predicate Expands(st: Store, s: string, self: Name, r: Outcome<string>) {
    r != Unfinished ==> exists f: nat :: ExpandAll(st, f, s, self) == r
  }

  ghost predicate Substitutes(st: Store, s: string, self: Name, r: Outcome<string>) {
    r != Unfinished ==> exists f: nat :: Substitute(st, f, s, self) == r
  }

  function Max(a: nat, b: nat): nat {
    if a < b then b else a
  }

  function Before(text: string, r: Outcome<string>): Outcome<string> {
    match r
    case Unfinished => Unfinished
    case Failed => Failed
    case Done(x) => Done(text + x)
  }

  lemma SubstituteChar(st: Store, s: string, self: Name, r: Outcome<string>)
    requires s != "" && RefLength(s) == 0 && Substitutes(st, s[1..], self, r)
    ensures Substitutes(st, s, self, Before([s[0]], r))
  {
    if r != Unfinished {
      var f: nat :| Substitute(st, f, s[1..], self) == r;
      assert Substitute(st, f, s, self) == Before([s[0]], r);
    }
  }

  lemma SubstituteSelf(st: Store, s: string, self: Name)
    requires RefLength(s) > 0 && s[2..RefLength(s) - 1] == self
    ensures Substitutes(st, s, self, Failed)
  {
    assert Substitute(st, 0, s, self) == Failed;
  }

  lemma SubstituteStep(st: Store, h: nat, s: string, self: Name, v: Option<string>)
    requires h > 0 && RefLength(s) > 0 && s[2..RefLength(s) - 1] != self
    requires Get(st, h - 1, s[2..RefLength(s) - 1]) == Done(v)
    ensures Substitute(st, h, s, self) ==
            Before(if v.Some? then v.value else s[..RefLength(s)], Substitute(st, h, s[RefLength(s)..], self))
  {
    hide Eval, RefLength;
  }

  lemma SubstituteKey(st: Store, s: string, self: Name, v: Option<string>, r: Outcome<string>)
    requires RefLength(s) > 0 && s[2..RefLength(s) - 1] != self
    requires Gets(st, s[2..RefLength(s) - 1], Done(v))
    requires Substitutes(st, s[RefLength(s)..], self, r)
    ensures Substitutes(st, s, self, Before(if v.Some? then v.value else s[..RefLength(s)], r))
  {
    hide Eval, RefLength, Substitute;
    if r != Unfinished {
      var n := RefLength(s);
      var f: nat :| Get(st, f, s[2..n - 1]) == Done(v);
      var g: nat :| Substitute(st, g, s[n..], self) == r;
      var h := Max(f, g) + 1;
      EvalDeeper(st, f, h - 1, s[2..n - 1], true);
      SubstituteDeeper(st, g, h, s[n..], self);
      SubstituteStep(st, h, s, self, v);
      assert Substitute(st, h, s, self) == Before(if v.Some? then v.value else s[..n], r);
    }
  }

  lemma SubstituteKeyFails(st: Store, s: string, self: Name)
    requires RefLength(s) > 0 && s[2..RefLength(s) - 1] != self
    requires Gets(st, s[2..RefLength(s) - 1], Failed)
    ensures Substitutes(st, s, self, Failed)
  {
    var n := RefLength(s);
    var f: nat :| Get(st, f, s[2..n - 1]) == Failed;
    assert Substitute(st, f + 1, s, self) == Failed;
  }

  lemma ExpandStep(st: Store, h: nat, s: string, self: Name, t: string)
    requires h > 0 && HasOpening(s) && t != s && Substitute(st, h, s, self) == Done(t)
    ensures ExpandAll(st, h, s, self) == ExpandAll(st, h - 1, t, self)
  {
    hide Substitute, HasOpening;
  }

  /** One more round of the `while` loop. */
  lemma ExpandRound(st: Store, s: string, self: Name, t: string, r: Outcome<string>)
    requires HasOpening(s) && t != s
    requires Substitutes(st, s, self, Done(t)) && Expands(st, t, self, r)
    ensures Expands(st, s, self, r)
  {
    hide Substitute, HasOpening, ExpandAll;
    if r != Unfinished {
      var f: nat :| Substitute(st, f, s, self) == Done(t);
      var g: nat :| ExpandAll(st, g, t, self) == r;
      var h := Max(f, g) + 1;
      SubstituteDeeper(st, f, h, s, self);
      ExpandAllDeeper(st, g, h - 1, t, self);
      ExpandStep(st, h, s, self, t);
    }
  }

  lemma ExpandStops(st: Store, s: string, self: Name)
    requires !HasOpening(s) || Substitutes(st, s, self, Done(s))
    ensures Expands(st, s, self, Done(s))
  {
    if !HasOpening(s) {
      assert ExpandAll(st, 0, s, self) == Done(s);
    } else {
      var f: nat :| Substitute(st, f, s, self) == Done(s);
      assert ExpandAll(st, f, s, self) == Done(s);
    }
  }

  lemma ExpandFails(st: Store, s: string, self: Name)
    requires HasOpening(s) && Substitutes(st, s, self, Failed)
    ensures Expands(st, s, self, Failed)
  {
    var f: nat :| Substitute(st, f, s, self) == Failed;
    assert ExpandAll(st, f, s, self) == Failed;
  }

  lemma ExpandEachNext(st: Store, removes: seq<string>, x: string, r: Outcome<seq<seq<string>>>)
    requires removes != [] && Expands(st, removes[0], "", Done(x)) && ExpandsEach(st, removes[1..], r)
    ensures ExpandsEach(st, removes, if r.Done? then Done([Words(x)] + r.value) else r)
  {
    if r != Unfinished {
      var f: nat :| ExpandAll(st, f, removes[0], "") == Done(x);
      var g: nat :| ExpandEach(st, g, removes[1..]) == r;
      var h := Max(f, g);
      ExpandAllDeeper(st, f, h, removes[0], "");
      ExpandEachDeeper(st, g, h, removes[1..]);
      assert ExpandEach(st, h, removes) == if r.Done? then Done([Words(x)] + r.value) else r;
    }
  }

  lemma ExpandEachFails(st: Store, removes: seq<string>)
    requires removes != [] && Expands(st, removes[0], "", Failed)
    ensures ExpandsEach(st, removes, Failed)
  {
    var f: nat :| ExpandAll(st, f, removes[0], "") == Failed;
    assert ExpandEach(st, f, removes) == Failed;
  }

  lemma FinishWith(st: Store, n: Name, expand: bool, from: Parsed, x: string, words: seq<seq<string>>)
    requires var e := At(st.vars, n); var raw := Surrounded(from.raw, e, st.overrides);
      && raw.Some? && Expands(st, raw.value, n, Done(x)) && (if expand then x else raw.value) != ""
      && ExpandsEach(st, AddNew(from.removed, Texts(e.removes, st.overrides)), Done(words))
    ensures var e := At(st.vars, n); var raw := Surrounded(from.raw, e, st.overrides);
      var removes := AddNew(from.removed, Texts(e.removes, st.overrides));
      |removes| == |words| && Finishes(st, n, expand, from, Done(Concluded(raw.value, x, removes, words)))
  {
    var e := At(st.vars, n);
    var raw := Surrounded(from.raw, e, st.overrides).value;
    var removes := AddNew(from.removed, Texts(e.removes, st.overrides));
    var f: nat :| ExpandAll(st, f, raw, n) == Done(x);
    var g: nat :| ExpandEach(st, g, removes) == Done(words);
    var h := Max(f, g);
    ExpandAllDeeper(st, f, h, raw, n);
    ExpandEachDeeper(st, g, h, removes);
    assert Finish(st, h, n, expand, from) == Done(Concluded(raw, x, removes, words));
  }

  lemma FinishWithout(st: Store, n: Name, expand: bool, from: Parsed, x: string)
    requires var raw := Surrounded(from.raw, At(st.vars, n), st.overrides);
      raw.Some? && Expands(st, raw.value, n, Done(x)) && (if expand then x else raw.value) == ""
    ensures Finishes(st, n, expand, from, Done(Parsed(Surrounded(from.raw, At(st.vars, n), st.overrides), Some(x), [])))
  {
    var raw := Surrounded(from.raw, At(st.vars, n), st.overrides);
    var f: nat :| ExpandAll(st, f, raw.value, n) == Done(x);
    assert Finish(st, f, n, expand, from) == Done(Parsed(raw, Some(x), []));
  }

  lemma FinishNone(st: Store, n: Name, expand: bool, from: Parsed)
    requires Surrounded(from.raw, At(st.vars, n), st.overrides).None?
    ensures Finishes(st, n, expand, from, Done(Parsed(None, None, [])))
  {
    assert Finish(st, 0, n, expand, from) == Done(Parsed(None, None, []));
  }

  lemma FinishFails(st: Store, n: Name, expand: bool, from: Parsed)
    requires var raw := Surrounded(from.raw, At(st.vars, n), st.overrides);
      raw.Some? && Expands(st, raw.value, n, Failed)
    ensures Finishes(st, n, expand, from, Failed)
  {
    var raw := Surrounded(from.raw, At(st.vars, n), st.overrides);
    var f: nat :| ExpandAll(st, f, raw.value, n) == Failed;
    assert Finish(st, f, n, expand, from) == Failed;
  }

  lemma FinishRemovalFails(st: Store, n: Name, expand: bool, from: Parsed, x: string)
    requires var e := At(st.vars, n); var raw := Surrounded(from.raw, e, st.overrides);
      && raw.Some? && Expands(st, raw.value, n, Done(x)) && (if expand then x else raw.value) != ""
      && ExpandsEach(st, AddNew(from.removed, Texts(e.removes, st.overrides)), Failed)
    ensures Finishes(st, n, expand, from, Failed)
  {
    var e := At(st.vars, n);
    var raw := Surrounded(from.raw, e, st.overrides).value;
    var removes := AddNew(from.removed, Texts(e.removes, st.overrides));
    var f: nat :| ExpandAll(st, f, raw, n) == Done(x);
    var g: nat :| ExpandEach(st, g, removes) == Failed;
    var h := Max(f, g);
    ExpandAllDeeper(st, f, h, raw, n);
    ExpandEachDeeper(st, g, h, removes);
    assert Finish(st, h, n, expand, from) == Failed;
  }

  lemma EvalPlain(st: Store, n: Name, expand: bool, r: Outcome<Parsed>)
    requires Matched(st, n).None? && Finishes(st, n, expand, Parsed(Own(At(st.vars, n)), None, []), r)
    ensures Evaluates(st, n, expand, r)
  {
    if r != Unfinished {
      var f: nat :| Finish(st, f, n, expand, Parsed(Own(At(st.vars, n)), None, [])) == r;
      assert Eval(st, f, n, expand) == r;
    }
  }

  lemma EvalStep(st: Store, h: nat, n: Name, expand: bool, p: Parsed)
    requires h > 0 && Matched(st, n).Some? && Eval(st, h - 1, Matched(st, n).value, false) == Done(p)
    ensures Eval(st, h, n, expand) == Finish(st, h, n, expand, From(At(st.vars, n), p))
  {
    hide Finish, From, Matched;
  }

  lemma EvalSelected(st: Store, n: Name, expand: bool, p: Parsed, r: Outcome<Parsed>)
    requires Matched(st, n).Some? && Evaluates(st, Matched(st, n).value, false, Done(p))
    requires Finishes(st, n, expand, From(At(st.vars, n), p), r)
    ensures Evaluates(st, n, expand, r)
  {
    hide Eval, Finish, From, Matched;
    if r != Unfinished {
      var m := Matched(st, n).value;
      var f: nat :| Eval(st, f, m, false) == Done(p);
      var g: nat :| Finish(st, g, n, expand, From(At(st.vars, n), p)) == r;
      var h := Max(f, g) + 1;
      EvalDeeper(st, f, h - 1, m, false);
      FinishDeeper(st, g, h, n, expand, From(At(st.vars, n), p));
      EvalStep(st, h, n, expand, p);
    }
  }

  lemma EvalSelectedFails(st: Store, n: Name, expand: bool)
    requires Matched(st, n).Some? && Evaluates(st, Matched(st, n).value, false, Failed)
    ensures Evaluates(st, n, expand, Failed)
  {
    var f: nat :| Eval(st, f, Matched(st, n).value, false) == Failed;
    assert Eval(st, f + 1, n, expand) == Failed;
  }

  // ---- an outcome that some depth gives is the one every sufficient depth gives ----

  ghost predicate EvaluatesWithin(st: Store, fuel: nat, n: Name, expand: bool, r: Outcome<Parsed>) {
    Evaluates(st, n, expand, r) && (Eval(st, fuel, n, expand) != Unfinished ==> r == Eval(st, fuel, n, expand))
  }

  ghost predicate FinishesWithin(st: Store, fuel: nat, n: Name, expand: bool, from: Parsed, r: Outcome<Parsed>) {
    && Finishes(st, n, expand, from, r)
    && (Finish(st, fuel, n, expand, from) != Unfinished ==> r == Finish(st, fuel, n, expand, from))
  }

  ghost predicate ExpandsEachWithin(st: Store, fuel: nat, removes: seq<string>, r: Outcome<seq<seq<string>>>) {
    ExpandsEach(st, removes, r) && (ExpandEach(st, fuel, removes) != Unfinished ==> r == ExpandEach(st, fuel, removes))
  }

  ghost predicate ExpandsWithin(st: Store, fuel: nat, s: string, self: Name, r: Outcome<string>) {
    Expands(st, s, self, r) && (ExpandAll(st, fuel, s, self) != Unfinished ==> r == ExpandAll(st, fuel, s, self))
  }

  ghost predicate SubstitutesWithin(st: Store, fuel: nat, s: string, self: Name, r: Outcome<string>) {
    Substitutes(st, s, self, r) && (Substitute(st, fuel, s, self) != Unfinished ==> r == Substitute(st, fuel, s, self))
  }

  lemma EvalUnique(st: Store, n: Name, expand: bool, r: Outcome<Parsed>, fuel: nat)
    requires Evaluates(st, n, expand, r) && r != Unfinished
    ensures EvaluatesWithin(st, fuel, n, expand, r)
  {
    var f: nat :| Eval(st, f, n, expand) == r;
    EvalDeeper(st, f, Max(f, fuel), n, expand);
    EvalDeeper(st, fuel, Max(f, fuel), n, expand);
  }

  lemma FinishUnique(st: Store, n: Name, expand: bool, from: Parsed, r: Outcome<Parsed>, fuel: nat)
    requires Finishes(st, n, expand, from, r) && r != Unfinished
    ensures FinishesWithin(st, fuel, n, expand, from, r)
  {
    var f: nat :| Finish(st, f, n, expand, from) == r;
    FinishDeeper(st, f, Max(f, fuel), n, expand, from);
    FinishDeeper(st, fuel, Max(f, fuel), n, expand, from);
  }

  lemma ExpandEachUnique(st: Store, removes: seq<string>, r: Outcome<seq<seq<string>>>, fuel: nat)
    requires ExpandsEach(st, removes, r) && r != Unfinished
    ensures ExpandsEachWithin(st, fuel, removes, r)
  {
    var f: nat :| ExpandEach(st, f, removes) == r;
    ExpandEachDeeper(st, f, Max(f, fuel), removes);
    ExpandEachDeeper(st, fuel, Max(f, fuel), removes);
  }

  lemma ExpandUnique(st: Store, s: string, self: Name, r: Outcome<string>, fuel: nat)
    requires Expands(st, s, self, r) && r != Unfinished
    ensures ExpandsWithin(st, fuel, s, self, r)
  {
    var f: nat :| ExpandAll(st, f, s, self) == r;
    ExpandAllDeeper(st, f, Max(f, fuel), s, self);
    ExpandAllDeeper(st, fuel, Max(f, fuel), s, self);
  }

  lemma SubstituteUnique(st: Store, s: string, self: Name, r: Outcome<string>, fuel: nat)
    requires Substitutes(st, s, self, r) && r != Unfinished
    ensures SubstitutesWithin(st, fuel, s, self, r)
  {
    var f: nat :| Substitute(st, f, s, self) == r;
    SubstituteDeeper(st, f, Max(f, fuel), s, self);
    SubstituteDeeper(st, fuel, Max(f, fuel), s, self);
  }

  lemma GetOutcome(st: Store, fuel: nat, n: Name, p: Outcome<Parsed>)
    requires EvaluatesWithin(st, fuel, n, true, p)
    ensures GetsWithin(st, fuel, n, Value(p))
  {
    if p != Unfinished {
      var f: nat :| Eval(st, f, n, true) == p;
      assert Get(st, f, n) == Value(p);
    }
  }

  /** What either way of evaluating a variable leaves for the cache. */
  lemma EvaluatedForCache(st: Store, n: Name, expand: bool, p: Parsed)
    requires Evaluates(st, n, expand, Done(p))
    ensures Gets(st, n, Done(p.expanded))
  {
    var f: nat :| Eval(st, f, n, expand) == Done(p);
    if !expand {
      ModesAgree(st, f, n);
    }
    assert Get(st, f, n) == Done(p.expanded);
  }
}
