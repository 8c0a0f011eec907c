/** What `${key}` references come to, said of the text alone. */
module ReferenceLaws {
  import opened DataStore
  import opened Options
  import opened OverrideChoice
  import opened Expansion
  import opened ExpandCache

  /** A name that can be referred to. */
  ghost predicate Referable(key: Name) {
    key != "" && forall c :: c in key ==> 'a' <= c <= 'z' || 'A' <= c <= 'Z' || '0' <= c <= '9' || c in ['-', '_', '+', '.', '/', '~']
  }

  /** No `${` anywhere. */
  ghost predicate NoReference(s: string) {
    forall i :: 0 <= i < |s| - 1 && s[i] == '$' ==> s[i + 1] != '{'
  }

  /** A text with references: each part is plain text and the name referred to behind it. */
  ghost function Template(parts: seq<(string, Name)>, last: string): string {
    if parts == [] then last
    else parts[0].0 + "${" + parts[0].1 + "}" + Template(parts[1..], last)
  }

  /** The value, or the reference itself where there is none. */
  ghost function InPlace(key: Name, value: Option<string>): string {
    match value
    case Some(v) => v
    case None => "${" + key + "}"
  }

  /** The same text with the values of the names in place, and the reference itself where there is no value. */
  ghost function Filled(parts: seq<(string, Name)>, values: seq<Option<string>>, last: string): string
    requires |parts| == |values|
  {
    if parts == [] then last
    else parts[0].0 + InPlace(parts[0].1, values[0]) + Filled(parts[1..], values[1..], last)
  }

  ghost predicate Proper(parts: seq<(string, Name)>, last: string, n: Name) {
    && NoReference(last)
    && forall i :: 0 <= i < |parts| ==> NoReference(parts[i].0) && Referable(parts[i].1) && parts[i].1 != n
  }

  /** Every name referred to evaluates to its value in the list. */
  ghost predicate AllGet(st: Store, parts: seq<(string, Name)>, values: seq<Option<string>>) {
    |parts| == |values| && forall i :: 0 <= i < |parts| ==> Gets(st, parts[i].1, Done(values[i]))
  }

  /** Its own text, no operations and no override selected. */
  ghost predicate HasText(st: Store, n: Name, text: string) {
    && n in st.vars && CONTENT in st.vars[n].flags && st.vars[n].flags[CONTENT] == text
    && st.vars[n].appends == [] && st.vars[n].prepends == [] && st.vars[n].removes == []
    && Matched(st, n).None?
  }

  // ---- scanning ----

  lemma OpeningMeans(s: string)
    ensures NoReference(s) <==> !HasOpening(s)
  {
  }

  lemma {:induction false} KeyMeasured(key: string, rest: string)
    requires forall c :: c in key ==> KeyChar(c)
    requires rest == "" || !KeyChar(rest[0])
    ensures KeyLength(key + rest) == |key|
  {
    if key == "" {
      assert key + rest == rest;
    } else {
      assert (key + rest)[1..] == key[1..] + rest && key[0] in key;
      KeyMeasured(key[1..], rest);
    }
  }

  lemma ReferenceMeasured(key: Name, rest: string)
    requires Referable(key)
    ensures var s := "${" + key + "}" + rest;
      RefLength(s) == |key| + 3 && s[2..RefLength(s) - 1] == key && s[..RefLength(s)] == "${" + key + "}" && s[RefLength(s)..] == rest
  {
    var s := "${" + key + "}" + rest;
    assert s[2..] == key + ("}" + rest);
    KeyMeasured(key, "}" + rest);
    assert s[2 + |key|] == '}';
  }

  /** Plain text in front is copied. */
  lemma {:induction false} TextCopied(st: Store, a: string, s: string, self: Name, r: Outcome<string>)
    requires NoReference(a) && (s == "" || s[0] == '$')
    requires Substitutes(st, s, self, r)
    ensures Substitutes(st, a + s, self, Before(a, r))
  {
    hide Substitute, Substitutes;
    if a == "" {
      assert a + s == s;
      assert r.Done? ==> a + r.value == r.value;
    } else {
      var tail := a[1..];
      assert (a + s)[1..] == tail + s;
      assert NoReference(tail) by {
        assert forall i :: 0 <= i < |tail| ==> tail[i] == a[i + 1];
      }
      TextCopied(st, tail, s, self, r);
      NoReferenceHere(a, s);
      SubstituteChar(st, a + s, self, Before(tail, r));
      assert r.Done? ==> [a[0]] + (tail + r.value) == a + r.value;
    }
  }

  lemma NoReferenceHere(a: string, s: string)
    requires a != "" && NoReference(a) && (s == "" || s[0] == '$')
    ensures RefLength(a + s) == 0
  {
    var t := a + s;
    assert |a| > 1 ==> t[1] == a[1];
    assert |a| == 1 && s != "" ==> t[1] == s[0];
  }

  /** One reference and what follows it. */
  lemma ReferenceSubstituted(st: Store, a: string, key: Name, value: Option<string>, rest: string, filled: string, n: Name)
    requires NoReference(a) && Referable(key) && key != n
    requires Gets(st, key, Done(value)) && Substitutes(st, rest, n, Done(filled))
    ensures Substitutes(st, a + "${" + key + "}" + rest, n, Done(a + InPlace(key, value) + filled))
  {
    hide Substitutes, Gets, NoReference, Referable, RefLength;
    var s, here := "${" + key + "}" + rest, InPlace(key, value);
    ReferenceMeasured(key, rest);
    SubstituteKey(st, s, n, value, Done(filled));
    TextCopied(st, a, s, n, Done(here + filled));
    assert a + s == a + "${" + key + "}" + rest && a + (here + filled) == a + here + filled;
  }

  lemma {:induction false} TemplateSubstituted(st: Store, parts: seq<(string, Name)>, values: seq<Option<string>>, last: string, n: Name)
    requires Proper(parts, last, n) && AllGet(st, parts, values)
    ensures Substitutes(st, Template(parts, last), n, Done(Filled(parts, values, last)))
  {
    hide Substitutes, Gets, NoReference, Referable;
    if parts == [] {
      NothingToSubstitute(st, n);
      TextCopied(st, last, "", n, Done(""));
      assert last + "" == last;
    } else {
      TemplateSubstituted(st, parts[1..], values[1..], last, n);
      ReferenceSubstituted(st, parts[0].0, parts[0].1, values[0], Template(parts[1..], last), Filled(parts[1..], values[1..], last), n);
    }
  }

  lemma {:induction false} NothingFilled(parts: seq<(string, Name)>, values: seq<Option<string>>, last: string)
    requires |parts| == |values| && forall i :: 0 <= i < |values| ==> values[i] == None
    ensures Filled(parts, values, last) == Template(parts, last)
  {
    if parts != [] {
      NothingFilled(parts[1..], values[1..], last);
    }
  }

  lemma TemplateOpens(parts: seq<(string, Name)>, last: string)
    requires parts != []
    ensures !NoReference(Template(parts, last))
  {
    var s, k := Template(parts, last), |parts[0].0|;
    assert s[k] == '$' && s[k + 1] == '{';
  }

  lemma TemplateExpanded(st: Store, parts: seq<(string, Name)>, values: seq<Option<string>>, last: string, n: Name)
    requires Proper(parts, last, n) && AllGet(st, parts, values)
    requires NoReference(Filled(parts, values, last)) || forall i :: 0 <= i < |values| ==> values[i] == None
    ensures Expands(st, Template(parts, last), n, Done(Filled(parts, values, last)))
  {
    hide Expands, Substitutes, Gets, NoReference, Referable, HasOpening;
    var s, filled := Template(parts, last), Filled(parts, values, last);
    TemplateSubstituted(st, parts, values, last, n);
    OpeningMeans(s);
    OpeningMeans(filled);
    if parts != [] && NoReference(filled) {
      TemplateOpens(parts, last);
      ExpandStops(st, filled, n);
      ExpandRound(st, s, n, filled, Done(filled));
    } else {
      NothingFilled(parts, values, last);
      ExpandStops(st, s, n);
    }
  }

  // ---- from the text to the value ----

  lemma NoOperations(st: Store, n: Name, text: string)
    requires HasText(st, n, text)
    ensures var e := At(st.vars, n);
      Own(e) == Some(text) && Surrounded(Own(e), e, st.overrides) == Some(text) && AddNew([], Texts(e.removes, st.overrides)) == []
  {
  }

  lemma TextEvaluated(st: Store, n: Name, text: string, x: string)
    requires HasText(st, n, text) && Expands(st, text, n, Done(x))
    ensures Gets(st, n, Done(Some(x)))
  {
    hide Expands, Surrounded, Own, Texts, AddNew, Matched, Gets, Finishes, Evaluates, ExpandsEach;
    var from := Parsed(Own(At(st.vars, n)), None, []);
    var p := Parsed(Some(text), Some(x), []);
    NoOperations(st, n, text);
    if x == "" {
      FinishWithout(st, n, true, from, x);
    } else {
      NothingToExpand(st);
      FinishWith(st, n, true, from, x, []);
    }
    EvalPlain(st, n, true, Done(p));
    EvaluatedForCache(st, n, true, p);
  }

  lemma TextFails(st: Store, n: Name, text: string)
    requires HasText(st, n, text) && Expands(st, text, n, Failed)
    ensures Gets(st, n, Failed)
  {
    hide Expands, Surrounded, Own, Texts, AddNew, Matched, Finishes;
    NoOperations(st, n, text);
    FinishFails(st, n, true, Parsed(Own(At(st.vars, n)), None, []));
    EvalPlain(st, n, true, Failed);
    var f: nat :| Eval(st, f, n, true) == Failed;
    assert Get(st, f, n) == Failed;
  }

  /** A text with any number of references evaluates to the text with the values in their places, when no
      reference is left in the result or none had a value. Any other depth gives this or does not finish. */
  lemma ReferencesReplaced(st: Store, fuel: nat, n: Name, parts: seq<(string, Name)>, values: seq<Option<string>>, last: string)
    requires HasText(st, n, Template(parts, last)) && Proper(parts, last, n) && AllGet(st, parts, values)
    requires NoReference(Filled(parts, values, last)) || forall i :: 0 <= i < |values| ==> values[i] == None
    ensures GetsWithin(st, fuel, n, Done(Some(Filled(parts, values, last))))
  {
    hide HasText, NoReference, Referable, Proper, Expands, Gets, GetsWithin;
    TemplateExpanded(st, parts, values, last, n);
    TextEvaluated(st, n, Template(parts, last), Filled(parts, values, last));
    GetUnique(st, fuel, n, Done(Some(Filled(parts, values, last))));
  }

  lemma GetUnique(st: Store, fuel: nat, n: Name, r: Outcome<Option<string>>)
    requires Gets(st, n, r) && r != Unfinished
    ensures GetsWithin(st, fuel, n, r)
  {
    var f: nat :| Get(st, f, n) == r;
    EvalDeeper(st, f, Max(f, fuel), n, true);
    EvalDeeper(st, fuel, Max(f, fuel), n, true);
  }

  lemma OnePart(a: string, key: Name, b: string, value: Option<string>)
    ensures Template([(a, key)], b) == a + "${" + key + "}" + b
    ensures Filled([(a, key)], [value], b) == if value.Some? then a + value.value + b else a + "${" + key + "}" + b
  {
    assert [(a, key)][1..] == [] && [value][1..] == [];
    assert Template([], b) == b && Filled([], [], b) == b;
  }

  /** One reference with text around it: the value takes its place, and without a value it stays as it is. */
  lemma ReferenceReplaced(st: Store, fuel: nat, n: Name, a: string, key: Name, b: string, value: Option<string>)
    requires HasText(st, n, a + "${" + key + "}" + b)
    requires Referable(key) && key != n && NoReference(a) && NoReference(b)
    requires Gets(st, key, Done(value))
    requires value.Some? ==> NoReference(a + value.value + b)
    ensures GetsWithin(st, fuel, n, Done(Some(if value.Some? then a + value.value + b else a + "${" + key + "}" + b)))
  {
    hide HasText, NoReference, Referable, Gets, GetsWithin;
    var parts, values := [(a, key)], [value];
    OnePart(a, key, b, value);
    ReferencesReplaced(st, fuel, n, parts, values, b);
  }

  /** A reference to the variable itself is an error. */
  lemma SelfReferenceFails(st: Store, fuel: nat, n: Name, a: string, b: string)
    requires HasText(st, n, a + "${" + n + "}" + b) && Referable(n) && NoReference(a)
    ensures GetsWithin(st, fuel, n, Failed)
  {
    hide HasText, NoReference, Referable, Substitutes, Expands, HasOpening, RefLength, Gets, GetsWithin;
    var s := "${" + n + "}" + b;
    ReferenceMeasured(n, b);
    SubstituteSelf(st, s, n);
    TextCopied(st, a, s, n, Failed);
    assert a + s == a + "${" + n + "}" + b;
    OpeningMeans(a + s);
    TemplateOpens([(a, n)], b);
    OnePart(a, n, b, None);
    ExpandFails(st, a + s, n);
    TextFails(st, n, a + s);
    GetUnique(st, fuel, n, Failed);
  }

  // ---- text that only looks like a reference ----

  lemma {:induction false} KeyStops(key: string, rest: string)
    requires exists c :: c in key && !KeyChar(c)
    ensures KeyLength(key + rest) < |key| && (key + rest)[KeyLength(key + rest)] in key
  {
    assert (key + rest)[0] == key[0] && key[0] in key;
    if KeyChar(key[0]) {
      assert (key + rest)[1..] == key[1..] + rest && key == [key[0]] + key[1..];
      KeyStops(key[1..], rest);
    }
  }

  lemma NoNameHere(key: string, b: string)
    requires !Referable(key) && '}' !in key
    ensures RefLength("${" + key + "}" + b) == 0
  {
    var s, rest := "${" + key + "}" + b, "}" + b;
    assert s[2..] == key + rest;
    if key == "" {
      assert key + rest == rest;
    } else {
      KeyStops(key, rest);
      assert s[2 + KeyLength(s[2..])] == (key + rest)[KeyLength(key + rest)];
    }
  }

  lemma PlainJoined(t: string, u: string)
    requires NoReference(t) && u != "" && u[0] == '}' && NoReference(u[1..])
    ensures NoReference(t + u)
  {
    var s, k := t + u, |t|;
    forall i | 0 <= i < |s| - 1 && s[i] == '$' ensures s[i + 1] != '{' {
      if i < k - 1 {
        assert s[i] == t[i] && s[i + 1] == t[i + 1];
      } else if i >= k {
        assert s[i] == u[i - k] && i > k;
        assert u[1..][i - k - 1] == s[i] && u[1..][i - k] == s[i + 1];
      }
    }
  }

  lemma BracedPlain(key: string, b: string)
    requires NoReference(key) && NoReference(b)
    ensures NoReference("{" + key + "}" + b)
  {
    var t, u := "{" + key, "}" + b;
    assert forall i :: 0 <= i < |key| ==> t[i + 1] == key[i];
    assert NoReference(t) by {
      forall i | 0 <= i < |t| - 1 && t[i] == '$' ensures t[i + 1] != '{' {
        assert t[i + 1] == key[i];
        assert t[i] == key[i - 1];
      }
    }
    PlainJoined(t, u);
    assert t + u == "{" + key + "}" + b;
  }

  /** `${`, a text that is neither a name to refer to nor Python code, and `}`: nothing is replaced. */
  lemma NoNameStays(st: Store, fuel: nat, n: Name, a: string, key: string, b: string)
    requires HasText(st, n, a + "${" + key + "}" + b)
    requires !Referable(key) && '}' !in key && (key == "" || key[0] != '@') && NoReference(a) && NoReference(key) && NoReference(b)
    ensures GetsWithin(st, fuel, n, Done(Some(a + "${" + key + "}" + b)))
  {
    hide HasText, NoReference, Referable, Substitutes, Expands, HasOpening, RefLength, Gets, GetsWithin;
    var s, tail := "${" + key + "}" + b, "{" + key + "}" + b;
    NothingToSubstitute(st, n);
    BracedPlain(key, b);
    TextCopied(st, tail, "", n, Done(""));
    assert tail + "" == tail && s[1..] == tail && ['$'] + tail == s;
    NoNameHere(key, b);
    SubstituteChar(st, s, n, Done(tail));
    TextCopied(st, a, s, n, Done(s));
    assert a + s == a + "${" + key + "}" + b;
    ExpandStops(st, a + s, n);
    TextEvaluated(st, n, a + s, a + s);
    GetUnique(st, fuel, n, Done(Some(a + s)));
  }
}
