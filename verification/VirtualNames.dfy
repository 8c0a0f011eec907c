/** Virtual file names: a recipe file together with a class variant and a multiconfig name. */
module VirtualNames {
  import opened Options
  import opened Strings

  datatype Real = Real(fn: string, cls: string, mc: string)

  function VirtualFn2RealFn(virtualfn: string): Real {
    var elems := Split(virtualfn, ':');
    if StartsWith(virtualfn, "mc:") && |elems| >= 2 then Strip(Join(elems[2..], ':'), elems[1]) else Strip(virtualfn, "")
  }

  /** The class part, once the multiconfig part is off. */
  function Strip(virtualfn: string, mc: string): Real {
    var elems := Split(virtualfn, ':');
    if StartsWith(virtualfn, "virtual:") && |elems| >= 2 then
      Real(elems[|elems| - 1], Join(elems[1..|elems| - 1], ':'), mc)
    else Real(virtualfn, "", mc)
  }

  function RealFn2Virtual(realfn: string, cls: string, mc: string): string {
    var inner := if cls != "" then "virtual:" + cls + ":" + realfn else realfn;
    if mc != "" then "mc:" + mc + ":" + inner else inner
  }

  /** None where the source fails with an index error: a variant "mc:..." without a second ':'. */
  function Variant2Virtual(realfn: string, variant: string): Option<string> {
    if variant == "" then Some(realfn)
    else if StartsWith(variant, "mc:") then
      var elems := Split(variant, ':');
      if |elems| < 3 then None
      else if elems[2] != "" then Some("mc:" + elems[1] + ":virtual:" + Join(elems[2..], ':') + ":" + realfn)
      else Some("mc:" + elems[1] + ":" + realfn)
    else Some("virtual:" + variant + ":" + realfn)
  }

  /** A name that starts with a word and ':' has that word as its first part. */
  lemma HeadPart(word: string, rest: string)
    requires ':' !in word
    ensures StartsWith(word + ":" + rest, word + ":")
    ensures Split(word + ":" + rest, ':') == [word] + Split(rest, ':')
  {
    assert (word + ":" + rest)[..|word| + 1] == word + ":";
    SplitAppend(word, rest, ':');
    SplitWhole(word, ':');
  }

  lemma TailOf(s: string, word: string)
    requires ':' !in word && StartsWith(s, word + ":")
    ensures var rest := s[|word| + 1..];
      s == word + ":" + rest && Split(s, ':') == [word] + Split(rest, ':')
  {
    HeadPart(word, s[|word| + 1..]);
  }

  lemma PrefixedParts(word: string, middle: string, rest: string)
    requires ':' !in word
    ensures var v := word + ":" + middle + ":" + rest;
      StartsWith(v, word + ":") && Split(v, ':') == [word] + (Split(middle, ':') + Split(rest, ':'))
  {
    hide Split, StartsWith;
    assert word + ":" + middle + ":" + rest == word + ":" + (middle + ":" + rest);
    HeadPart(word, middle + ":" + rest);
    SplitAppend(middle, rest, ':');
  }

  /** The multiconfig part comes off as it went on exactly when it has no ':'. */
  lemma StripMultiConfig(mc: string, inner: string)
    ensures ':' !in mc ==> VirtualFn2RealFn("mc:" + mc + ":" + inner) == Strip(inner, mc)
    ensures ':' in mc ==> VirtualFn2RealFn("mc:" + mc + ":" + inner).mc != mc
  {
    hide Split, StartsWith, Join;
    assert "mc" + ":" == "mc:";
    PrefixedParts("mc", mc, inner);
    var elems := Split("mc:" + mc + ":" + inner, ':');
    if ':' in mc {
      PartsClean(mc, ':');
      assert elems[1] == Split(mc, ':')[0];
    } else {
      SplitWhole(mc, ':');
      assert elems[2..] == Split(inner, ':');
      JoinSplit(inner, ':');
    }
  }

  lemma StripClass(fn: string, cls: string, mc: string)
    requires cls != ""
    ensures Strip("virtual:" + cls + ":" + fn, mc) == Real(fn, cls, mc) <==> ':' !in fn
  {
    hide Split, StartsWith, Join;
    assert "virtual" + ":" == "virtual:";
    PrefixedParts("virtual", cls, fn);
    var elems := Split("virtual:" + cls + ":" + fn, ':');
    PartsClean(fn, ':');
    assert elems[|elems| - 1] == Split(fn, ':')[|Split(fn, ':')| - 1];
    if ':' !in fn {
      SplitWhole(fn, ':');
      assert elems[1..|elems| - 1] == Split(cls, ':');
      JoinSplit(cls, ':');
    }
  }

  /** A file name alone is taken for something else exactly when it starts like a virtual name. */
  lemma StripPlain(fn: string, mc: string)
    ensures Strip(fn, mc) == Real(fn, "", mc) <==> !StartsWith(fn, "virtual:")
  {
    if StartsWith(fn, "virtual:") {
      assert "virtual" + ":" == "virtual:";
      TailOf(fn, "virtual");
      PartsClean(fn, ':');
      assert fn[7] == ':';
      var elems := Split(fn, ':');
      assert elems[|elems| - 1] in elems;
    }
  }

  /** Decoding undoes encoding exactly for these names. */
  predicate Encodable(fn: string, cls: string, mc: string) {
    && ':' !in mc
    && (cls != "" ==> ':' !in fn)
    && (cls == "" ==> !StartsWith(fn, "virtual:") && (mc == "" ==> !StartsWith(fn, "mc:")))
  }

  lemma RoundTrip(fn: string, cls: string, mc: string)
    ensures VirtualFn2RealFn(RealFn2Virtual(fn, cls, mc)) == Real(fn, cls, mc) <==> Encodable(fn, cls, mc)
  {
    var inner := if cls != "" then "virtual:" + cls + ":" + fn else fn;
    if mc != "" {
      StripMultiConfig(mc, inner);
    } else if StartsWith(inner, "mc:") {
      assert inner[0] == 'm';
      assert cls == "";
      ShorterWithout(fn);
    }
    if cls != "" {
      StripClass(fn, cls, mc);
    } else {
      StripPlain(fn, mc);
    }
  }

  /** What is left of a name "mc:..." is not that name. */
  lemma ShorterWithout(fn: string)
    requires StartsWith(fn, "mc:")
    ensures VirtualFn2RealFn(fn).fn != fn
  {
    assert "mc" + ":" == "mc:";
    TailOf(fn, "mc");
    var rest := fn[3..];
    var elems := Split(fn, ':');
    assert elems[1..] == Split(rest, ':');
    JoinSplit(rest, ':');
    var inner := Join(elems[2..], ':');
    assert |inner| <= |rest| by {
      assert elems[1..][1..] == elems[2..];
    }
    LastPartShort(inner);
  }

  lemma LastPartShort(s: string)
    ensures |Strip(s, "").fn| <= |s|
    ensures forall mc :: Strip(s, mc).fn == Strip(s, "").fn
  {
    JoinSplit(s, ':');
    PartsShort(Split(s, ':'));
  }

  lemma {:induction false} PartsShort(parts: seq<string>)
    ensures forall p :: p in parts ==> |p| <= |Join(parts, ':')|
  {
    if |parts| > 1 {
      PartsShort(parts[1..]);
      assert parts == [parts[0]] + parts[1..];
    }
  }

  /** No two encodable names share a virtual name. */
  lemma VirtualNamesDiffer(a: Real, b: Real)
    requires Encodable(a.fn, a.cls, a.mc) && Encodable(b.fn, b.cls, b.mc) && a != b
    ensures RealFn2Virtual(a.fn, a.cls, a.mc) != RealFn2Virtual(b.fn, b.cls, b.mc)
  {
    RoundTrip(a.fn, a.cls, a.mc);
    RoundTrip(b.fn, b.cls, b.mc);
  }

  /** What the variant "mc:M:C" is decoded to. */
  lemma DecodedVariant(fn: string, cls: string, mc: string)
    requires ':' !in mc
    ensures Variant2Virtual(fn, "mc:" + mc + ":" + cls) ==
            Some(if cls == "" || StartsWith(cls, ":") then "mc:" + mc + ":" + fn
                 else "mc:" + mc + ":virtual:" + cls + ":" + fn)
  {
    hide Split, StartsWith, Join;
    assert "mc" + ":" == "mc:";
    PrefixedParts("mc", mc, cls);
    SplitWhole(mc, ':');
    var elems := Split("mc:" + mc + ":" + cls, ':');
    assert elems == ["mc", mc] + Split(cls, ':');
    assert elems[2..] == Split(cls, ':');
    JoinSplit(cls, ':');
    FirstPart(cls);
  }

  /** The variant "mc:M:C" names the same file as (C, M) does exactly when M is not empty and C does not
      start with a ':'. */
  lemma VariantAgrees(fn: string, cls: string, mc: string)
    requires ':' !in mc
    ensures Variant2Virtual(fn, "mc:" + mc + ":" + cls) == Some(RealFn2Virtual(fn, cls, mc))
            <==> mc != "" && !StartsWith(cls, ":")
  {
    hide Variant2Virtual, StartsWith, RealFn2Virtual;
    DecodedVariant(fn, cls, mc);
    NoColonFirst(cls);
    VirtualLength(fn, cls, mc);
    if mc != "" && !StartsWith(cls, ":") {
      VirtualOf(fn, cls, mc);
    }
  }

  lemma VirtualLength(fn: string, cls: string, mc: string)
    ensures |RealFn2Virtual(fn, cls, mc)| ==
            (if mc != "" then |mc| + 4 else 0) + (if cls != "" then |cls| + 9 else 0) + |fn|
  {
  }

  lemma VirtualOf(fn: string, cls: string, mc: string)
    requires mc != ""
    ensures RealFn2Virtual(fn, cls, mc) ==
            if cls == "" then "mc:" + mc + ":" + fn else "mc:" + mc + ":virtual:" + cls + ":" + fn
  {
    if cls != "" {
      assert "mc:" + mc + ":" + ("virtual:" + cls + ":" + fn) == "mc:" + mc + ":virtual:" + cls + ":" + fn;
    }
  }

  lemma NoColonFirst(s: string)
    ensures StartsWith(s, ":") ==> s != ""
  {
  }

  lemma FirstPart(s: string)
    ensures Split(s, ':')[0] == "" <==> s == "" || StartsWith(s, ":")
  {
    if s != "" {
      assert StartsWith(s, ":") <==> s[0] == ':';
    }
  }

  /** Any other variant is a class. */
  lemma VariantIsClass(fn: string, cls: string)
    requires !StartsWith(cls, "mc:")
    ensures Variant2Virtual(fn, cls) == Some(RealFn2Virtual(fn, cls, ""))
  {
  }
}
