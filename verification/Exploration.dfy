/** How far a run gets: what it looks at is what the requested targets lead to, and nothing else. */
module Exploration {
  import opened FailurePropagation
  import opened RecipeCache

  /** The known and the failed targets and the seen files lie within every set that holds the roots, the
      candidates of its targets and what its files ask for; and the targets asked for by tasks of seen
      files are known. */
  ghost predicate Explored(cache: DataCache, roots: set<Target>, s: State, seen: set<Fn>) {
    && (forall files: set<Fn>, targets: set<Target> :: cache.HoldsReached(files, targets) && roots <= targets ==>
          Inside(s, seen, files, targets))
    && forall f :: f in seen ==> cache.TaskTargets(f) <= s.lists.Keys
  }

  ghost predicate Inside(s: State, seen: set<Fn>, files: set<Fn>, targets: set<Target>) {
    s.lists.Keys <= targets && s.gone <= targets && seen <= files
  }

  /** The target was requested or is known. */
  ghost predicate Wanted(roots: set<Target>, s: State, t: Target) {
    t in roots || t in s.lists
  }

  lemma ExploredStart(cache: DataCache, roots: set<Target>, s: State)
    requires s.lists == map[] && s.gone == {}
    ensures Explored(cache, roots, s, {})
  {
  }

  lemma ExploredListed(cache: DataCache, roots: set<Target>, s: State, seen: set<Fn>, t: Target, fn: Fn)
    requires Explored(cache, roots, s, seen) && Wanted(roots, s, t)
    ensures Explored(cache, roots, Listed(s, t, fn), seen)
  {
    hide DataCache.HoldsReached, DataCache.TaskTargets;
  }

  lemma ExploredSpread(cache: DataCache, roots: set<Target>, g: Edges, s0: State, s1: State, seen: set<Fn>, seeds: set<Fn>)
    requires Explored(cache, roots, s0, seen) && Spread(g, s0, s1, seeds)
    ensures Explored(cache, roots, s1, seen)
  {
    hide DataCache.HoldsReached, DataCache.TaskTargets, Closed, Without;
  }

  lemma ExploredGone(cache: DataCache, roots: set<Target>, g: Edges, s0: State, s1: State, seen: set<Fn>, t: Target, seeds: set<Fn>)
    requires Explored(cache, roots, s0, seen) && Wanted(roots, s0, t)
    requires Spread(g, s0.(gone := s0.gone + {t}), s1, seeds)
    ensures Explored(cache, roots, s1, seen)
  {
    hide DataCache.HoldsReached, DataCache.TaskTargets, Spread;
    var s := s0.(gone := s0.gone + {t});
    assert Explored(cache, roots, s, seen);
    ExploredSpread(cache, roots, g, s, s1, seen, seeds);
  }

  /** A candidate of a wanted target is looked at. */
  lemma ExploredFileAdded(cache: DataCache, roots: set<Target>, g: Edges, s0: State, s1: State, seen: set<Fn>, fn: Fn,
                          t: Target, doomed: bool)
    requires Explored(cache, roots, s0, seen) && FileAdded(g, s0, s1, fn, doomed)
    requires cache.TaskTargets(fn) <= s1.lists.Keys <= s0.lists.Keys + cache.AskedBy(fn)
    requires Wanted(roots, s0, t) && t in cache.Candidates() && fn in cache.Candidates()[t]
    ensures Explored(cache, roots, s1, seen + {fn})
  {
    hide DataCache.TaskTargets, DataCache.AskedBy, DataCache.Candidates, Inside;
    AddedKeys(g, s0, s1, fn, doomed);
    forall files: set<Fn>, targets: set<Target> | cache.HoldsReached(files, targets) && roots <= targets
      ensures Inside(s1, seen + {fn}, files, targets)
    {
      InsideAdded(cache, roots, s0, s1, seen, fn, t, files, targets);
    }
  }

  lemma InsideAdded(cache: DataCache, roots: set<Target>, s0: State, s1: State, seen: set<Fn>, fn: Fn, t: Target,
                    files: set<Fn>, targets: set<Target>)
    requires cache.HoldsReached(files, targets) && roots <= targets && Inside(s0, seen, files, targets)
    requires Wanted(roots, s0, t) && t in cache.Candidates() && fn in cache.Candidates()[t]
    requires s1.lists.Keys <= s0.lists.Keys + cache.AskedBy(fn) && s1.gone <= s0.gone + s1.lists.Keys
    ensures Inside(s1, seen + {fn}, files, targets)
  {
    hide DataCache.AskedBy, DataCache.Candidates;
    assert fn in files && cache.AskedBy(fn) <= targets;
  }

  lemma AddedKeys(g: Edges, s0: State, s1: State, fn: Fn, doomed: bool)
    requires FileAdded(g, s0, s1, fn, doomed)
    ensures s0.lists.Keys <= s1.lists.Keys && s1.gone <= s0.gone + s1.lists.Keys
  {
    hide Closed, Without;
  }

  lemma WantedStill(roots: set<Target>, s0: State, s1: State, extra: set<Target>, t: Target)
    requires Wanted(roots, s0, t) && Advances(s0, s1, extra)
    ensures Wanted(roots, s1, t)
  {
  }
}
