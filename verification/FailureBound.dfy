/** Only what has to fail fails: a bound on failed files and targets in terms of the recipes. */
module FailureBound {
  import opened FailurePropagation
  import opened RecipeCache
  import opened Sequences

  /** Every failed target has no candidate, too many preferred ones, or a failed first candidate; and the
      failed files lie within every set that holds all files asking for such a target. */
  ghost predicate Justified(cache: DataCache, s: State) {
    && (forall t :: t in s.gone ==> cache.Hopeless(t, s.failed))
    && (forall c: set<Fn> :: cache.HoldsDoomed(c) ==> s.failed <= c)
  }

  /** The first candidate of a provided target is listed or has failed. */
  ghost predicate Led(cache: DataCache, s: State) {
    forall t :: ListOf(s, t) != [] ==> Leads(cache, s, t)
  }

  ghost predicate Leads(cache: DataCache, s: State, t: Target) {
    && !cache.ignored(t.name) && t in cache.Candidates() && cache.Candidates()[t] != []
    && (cache.Candidates()[t][0] in s.failed || cache.Candidates()[t][0] in ListOf(s, t))
  }

  ghost predicate Bounded(cache: DataCache, s: State) {
    Justified(cache, s) && Led(cache, s)
  }

  lemma BoundedStart(cache: DataCache, s: State)
    requires s.failed == {} && s.gone == {} && forall t :: t in s.lists ==> s.lists[t] == []
    ensures Bounded(cache, s)
  {
  }

  lemma BoundedExtends(cache: DataCache, s0: State, s1: State)
    requires Bounded(cache, s0) && Extends(s0, s1)
    ensures Bounded(cache, s1)
  {
    hide DataCache.Candidates, DataCache.Hopeless, DataCache.HoldsDoomed;
    forall t | ListOf(s1, t) != [] ensures Leads(cache, s1, t) {
      assert ListOf(s0, t) == ListOf(s1, t);
      assert Leads(cache, s0, t);
    }
  }

  /** The target may list its candidate fn: it has providers already, or fn is the first candidate, or that one has failed. */
  ghost predicate MayLead(cache: DataCache, s: State, t: Target, fn: Fn) {
    && !cache.ignored(t.name) && t in cache.Candidates() && fn in cache.Candidates()[t]
    && (ListOf(s, t) != [] || cache.Candidates()[t][0] == fn || cache.Candidates()[t][0] in s.failed)
  }

  lemma MayLeadCandidate(cache: DataCache, s: State, t: Target, fn: Fn)
    requires MayLead(cache, s, t, fn)
    ensures t in cache.Candidates() && fn in cache.Candidates()[t]
  {
  }

  lemma BoundedListed(cache: DataCache, s: State, t: Target, fn: Fn)
    requires Bounded(cache, s) && MayLead(cache, s, t, fn)
    ensures Bounded(cache, Listed(s, t, fn))
  {
    hide DataCache.Candidates, DataCache.Hopeless, DataCache.HoldsDoomed;
    var s' := Listed(s, t, fn);
    forall u | ListOf(s', u) != [] ensures Leads(cache, s', u) {
      if ListOf(s, u) != [] {
        assert Leads(cache, s, u);
      }
    }
  }

  lemma HopelessMore(cache: DataCache, t: Target, c: set<Fn>, d: set<Fn>)
    requires cache.Hopeless(t, c) && c <= d
    ensures cache.Hopeless(t, d)
  {
  }

  lemma FirstIsHopeless(cache: DataCache, t: Target, c: set<Fn>)
    requires !cache.ignored(t.name) && t in cache.Candidates() && cache.Candidates()[t] != [] && cache.Candidates()[t][0] in c
    ensures cache.Hopeless(t, c)
  {
  }

  /** What the recipes ask for covers what the tables hold. */
  ghost predicate Covered(cache: DataCache, g: Edges) {
    forall e :: e in g ==> cache.Asks(e.0, e.1)
  }

  /** Losing all providers is among the reasons to fail. */
  lemma ClosedWhenDoomed(cache: DataCache, g: Edges, s: State, c: set<Fn>)
    requires Led(cache, s) && Covered(cache, g) && cache.HoldsDoomed(c) && s.failed <= c
    ensures Closed(g, s, c)
  {
    hide DataCache.Candidates, DataCache.Hopeless, DataCache.Asks;
    forall t, f | t in s.lists && s.lists[t] != [] && (forall x :: x in s.lists[t] ==> x in c) && (f, t) in g
      ensures f in c
    {
      assert Leads(cache, s, t);
      FirstIsHopeless(cache, t, c);
      assert cache.Asks((f, t).0, (f, t).1);
    }
  }

  ghost predicate Doomed(cache: DataCache, failed: set<Fn>, seeds: set<Fn>) {
    forall c: set<Fn> :: cache.HoldsDoomed(c) && failed <= c ==> seeds <= c
  }

  lemma SpreadLed(cache: DataCache, g: Edges, s0: State, s1: State, seeds: set<Fn>)
    requires Led(cache, s0) && Spread(g, s0, s1, seeds)
    ensures Led(cache, s1)
  {
    hide DataCache.Candidates, Closed;
    forall t | ListOf(s1, t) != [] ensures Leads(cache, s1, t) {
      assert ListOf(s1, t)[0] in ListOf(s0, t);
      assert Leads(cache, s0, t);
    }
  }

  lemma SpreadTargets(cache: DataCache, g: Edges, s0: State, s1: State, seeds: set<Fn>, t: Target)
    requires Bounded(cache, s0) && Spread(g, s0, s1, seeds) && t in s1.gone
    ensures cache.Hopeless(t, s1.failed)
  {
    hide DataCache.Candidates, DataCache.Hopeless, DataCache.HoldsDoomed, Closed;
    if t in s0.gone {
      HopelessMore(cache, t, s0.failed, s1.failed);
    } else {
      assert Leads(cache, s0, t);
      var first := cache.Candidates()[t][0];
      assert first !in Without(s0.lists[t], s1.failed - s0.failed);
      FirstIsHopeless(cache, t, s1.failed);
    }
  }

  /** Propagation from files that had to fail stays within the bound. */
  lemma BoundedSpread(cache: DataCache, g: Edges, s0: State, s1: State, seeds: set<Fn>)
    requires Bounded(cache, s0) && Covered(cache, g) && Doomed(cache, s0.failed, seeds)
    requires Spread(g, s0, s1, seeds)
    ensures Bounded(cache, s1)
  {
    hide Led, Closed, DataCache.Hopeless, DataCache.HoldsDoomed, Covered;
    SpreadLed(cache, g, s0, s1, seeds);
    forall t | t in s1.gone ensures cache.Hopeless(t, s1.failed) {
      SpreadTargets(cache, g, s0, s1, seeds, t);
    }
    forall c: set<Fn> | cache.HoldsDoomed(c) ensures s1.failed <= c {
      ClosedWhenDoomed(cache, g, s0, c);
    }
  }

  /** A file that needs a failed target had to fail. */
  lemma NeedyIsDoomed(cache: DataCache, s: State, fn: Fn)
    requires Justified(cache, s) && cache.NeedsGone(fn, s.gone)
    ensures Doomed(cache, s.failed, {fn})
  {
    hide DataCache.Hopeless;
    var t :| t in s.gone && cache.Asks(fn, t);
    forall c: set<Fn> | cache.HoldsDoomed(c) && s.failed <= c ensures fn in c {
      HopelessMore(cache, t, s.failed, c);
    }
  }

  lemma BoundedFileAdded(cache: DataCache, g: Edges, s0: State, s1: State, fn: Fn)
    requires Bounded(cache, s0) && Covered(cache, g)
    requires FileAdded(g, s0, s1, fn, cache.NeedsGone(fn, s0.gone))
    ensures Bounded(cache, s1)
  {
    hide Bounded, Covered, Doomed, Spread, Extends, DataCache.NeedsGone;
    if cache.NeedsGone(fn, s0.gone) {
      var s :| Extends(s0, s) && Spread(g, s, s1, {fn});
      BoundedExtends(cache, s0, s);
      SameFailures(s0, s);
      BoundedJustified(cache, s);
      NeedyIsDoomed(cache, s, fn);
      BoundedSpread(cache, g, s, s1, {fn});
    } else {
      BoundedExtends(cache, s0, s1);
    }
  }

  lemma SameFailures(s0: State, s1: State)
    requires Extends(s0, s1)
    ensures s1.failed == s0.failed && s1.gone == s0.gone
  {
  }

  lemma BoundedJustified(cache: DataCache, s: State)
    requires Bounded(cache, s)
    ensures Justified(cache, s)
  {
  }

  /** A target is given up, and with it every file that needs it. */
  lemma BoundedGaveUp(cache: DataCache, g: Edges, s0: State, s1: State, t: Target)
    requires Bounded(cache, s0) && Covered(cache, g) && cache.Hopeless(t, s0.failed)
    requires Spread(g, s0.(gone := s0.gone + {t}), s1, set e | e in g && e.1 == t :: e.0)
    ensures Bounded(cache, s1)
  {
    hide Spread, DataCache.Hopeless, DataCache.Candidates, DataCache.Asks, DataCache.HoldsDoomed;
    var dependees := set e | e in g && e.1 == t :: e.0;
    var s := s0.(gone := s0.gone + {t});
    assert Bounded(cache, s) by {
      forall u | ListOf(s, u) != [] ensures Leads(cache, s, u) {
        assert Leads(cache, s0, u);
      }
    }
    DependeesDoomed(cache, g, s0.failed, t, dependees);
    BoundedSpread(cache, g, s, s1, dependees);
  }

  lemma DependeesDoomed(cache: DataCache, g: Edges, failed: set<Fn>, t: Target, dependees: set<Fn>)
    requires Covered(cache, g) && cache.Hopeless(t, failed)
    requires dependees == set e | e in g && e.1 == t :: e.0
    ensures Doomed(cache, failed, dependees)
  {
    hide DataCache.Hopeless, DataCache.Asks;
    forall c: set<Fn> | cache.HoldsDoomed(c) && failed <= c ensures dependees <= c {
      HopelessMore(cache, t, failed, c);
      forall f | f in dependees ensures f in c {
        var e :| e in g && e.1 == t && e.0 == f;
        assert cache.Asks(e.0, e.1);
      }
    }
  }

  /** When every mentioned name is provided for, the empty set holds every doomed file. */
  lemma NobodyDoomed(cache: DataCache)
    ensures cache.Provides() <==> cache.HoldsDoomed({})
  {
    hide DataCache.Asks;
  }

  // ---- the candidates of one target, in the middle of being added ----

  /** The first candidate comes first among those that have not failed. */
  lemma {:induction false} FirstLive(candidates: seq<Fn>, failed: set<Fn>)
    requires candidates != [] && candidates[0] !in failed
    ensures Without(candidates, failed) != [] && Without(candidates, failed)[0] == candidates[0]
  {
    if |candidates| > 1 {
      FirstLive(candidates[..|candidates| - 1], failed);
    }
  }

  /** The candidates that had not failed at s0 may be listed one after the other. */
  lemma NextMayLead(cache: DataCache, s0: State, s: State, t: Target, eligible: seq<Fn>, i: nat)
    requires !cache.ignored(t.name) && t in cache.Candidates()
    requires eligible == Without(cache.Candidates()[t], s0.failed) && s0.failed <= s.failed
    requires i < |eligible| && ListOf(s, t) == Without(eligible[..i], s.failed)
    ensures MayLead(cache, s, t, eligible[i])
  {
    hide DataCache.Candidates;
    var candidates := cache.Candidates()[t];
    if candidates[0] !in s.failed {
      FirstLive(candidates, s0.failed);
      if i > 0 {
        assert eligible[..i][0] == candidates[0];
        FirstLive(eligible[..i], s.failed);
      }
    }
  }
}
