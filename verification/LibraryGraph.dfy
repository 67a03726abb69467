/** The dependency graph of static libraries: built from the symbols they define and
    need, then pruned, in place, to its transitive reduction. */
module LibraryGraph {
  import opened Graphs

  class Lib {
    const syms: set<string>
    const neededSyms: set<string>
    /** Libraries this one depends on, and libraries that depend on this one. */
    var needs: set<Lib>
    var needed: set<Lib>

    constructor (syms: set<string>, neededSyms: set<string>)
      ensures this.syms == syms && this.neededSyms == neededSyms && needs == {} && needed == {}
    {
      this.syms, this.neededSyms, needs, needed := syms, neededSyms, {}, {};
    }
  }

  /** `b` uses a symbol that `a` defines. */
  predicate Uses(a: Lib, b: Lib) { a != b && a.syms * b.neededSyms != {} }

  /** The graph the symbols imply: an edge from each library to those that use it. */
  ghost function SymbolGraph(libs: set<Lib>): (g: Graph<Lib>)
    ensures g.Keys == libs && Closed(g)
  {
    map a | a in libs :: set b | b in libs && Uses(a, b)
  }

  /** The graph recorded in the `needed` sets. */
  ghost function Recorded(libs: set<Lib>): (g: Graph<Lib>)
    reads libs
    ensures g.Keys == libs
  {
    map a | a in libs :: a.needed
  }

  /** `needs` and `needed` are inverse to each other and stay among the libraries. */
  ghost predicate Mutual(libs: set<Lib>)
    reads libs
  {
    && (forall a | a in libs :: a.needed <= libs && a.needs <= libs)
    && (forall a, b | a in libs && b in libs :: b in a.needed <==> a in b.needs)
  }

  ghost predicate Built(libs: set<Lib>, done: set<Lib>, a: Lib, seen: set<Lib>)
    reads libs
  {
    && (forall x | x in libs * done :: x.needed == set b | b in libs && Uses(x, b))
    && (forall x | x in libs - done && x != a :: x.needed == {})
    && (a in libs - done ==> a.needed == set b | b in seen && Uses(a, b))
  }

  /** Look at every ordered pair of libraries. */
  method BuildGraph(libs: set<Lib>)
    requires forall l | l in libs :: l.needs == {} && l.needed == {}
    modifies libs
    ensures Mutual(libs) && Recorded(libs) == SymbolGraph(libs)
  {
    var todo, done := libs, {};
    while todo != {}
      invariant todo + done == libs && todo !! done
      invariant Mutual(libs)
      invariant forall x | x in done :: x.needed == set b | b in libs && Uses(x, b)
      invariant forall x | x in todo :: x.needed == {}
      decreases todo
    {
      var a :| a in todo;
      BuildFrom(libs, done, a);
      todo, done := todo - {a}, done + {a};
    }
  }

  method BuildFrom(libs: set<Lib>, ghost done: set<Lib>, a: Lib)
    requires a in libs - done && done <= libs && Mutual(libs) && Built(libs, done, a, {})
    modifies libs
    ensures Mutual(libs) && Built(libs, done, a, libs)
  {
    var todo, seen := libs, {};
    while todo != {}
      invariant todo + seen == libs && todo !! seen
      invariant Mutual(libs) && Built(libs, done, a, seen)
      decreases todo
    {
      var b :| b in todo;
      LinkIfUsed(libs, done, a, b, seen);
      todo, seen := todo - {b}, seen + {b};
    }
  }

  method LinkIfUsed(libs: set<Lib>, ghost done: set<Lib>, a: Lib, b: Lib, ghost seen: set<Lib>)
    requires a in libs - done && b in libs && Mutual(libs) && Built(libs, done, a, seen)
    modifies a, b
    ensures Mutual(libs) && Built(libs, done, a, seen + {b})
  {
    if a != b && a.syms * b.neededSyms != {} {
      b.needs := b.needs + {a};
      a.needed := a.needed + {b};
    }
  }

  // ---- pruning ----

  /** While the edges out of `t` are being pruned, all other edges are those of `g`. */
  ghost predicate Except(libs: set<Lib>, g: Graph<Lib>, t: Lib)
    reads libs
  {
    g.Keys == libs && t in libs && forall l | l in libs && l != t :: l.needed == g[l]
  }

  ghost function Descendants(g: Graph<Lib>, a: Lib): set<Lib> { set x | x in g.Keys && Reaches(g, a, x) }

  lemma DescendantsShrink(g: Graph<Lib>, a: Lib, b: Lib)
    requires Closed(g) && Acyclic(g) && a in g && b in g[a]
    ensures Descendants(g, b) < Descendants(g, a)
  {
    EdgeReaches(g, a, b);
    forall x | x in Descendants(g, b) ensures x in Descendants(g, a) { ReachTrans(g, a, b, x); }
    assert b in Descendants(g, a) && b !in Descendants(g, b);
  }

  /** `x` is one of `from` or below one of them. */
  ghost predicate AtOrBelow(g: Graph<Lib>, from: set<Lib>, x: Lib) {
    exists d | d in from :: d == x || Reaches(g, d, x)
  }

  lemma BelowIsAtOrBelowSuccessors(g: Graph<Lib>, a: Lib, x: Lib)
    requires a in g
    ensures Reaches(g, a, x) <==> AtOrBelow(g, g[a], x)
  {
    if Reaches(g, a, x) {
      var c := FirstStep(g, a, x);
    }
    if AtOrBelow(g, g[a], x) {
      var d :| d in g[a] && (d == x || Reaches(g, d, x));
      EdgeThenReaches(g, a, d, x);
    }
  }

  lemma SuccessorAvoids(g: Graph<Lib>, cur: Lib, t: Lib, i: Lib)
    requires cur in g && i in g[cur] && cur != t && !Reaches(g, cur, t)
    ensures i != t && !Reaches(g, i, t)
  {
    if i == t || Reaches(g, i, t) { EdgeThenReaches(g, cur, i, t); }
  }

  /** Drop the edge from `t` to `i`, if there is one, on both sides. */
  method Cut(i: Lib, t: Lib, ghost libs: set<Lib>, ghost g: Graph<Lib>)
    requires Except(libs, g, t) && Mutual(libs) && i in libs
    modifies i`needs, t`needed
    ensures Except(libs, g, t) && Mutual(libs) && t.needed == old(t.needed) - {i}
  {
    i.needs := i.needs - {t};
    t.needed := t.needed - {i};
  }

  lemma AtOrBelowAdd(g: Graph<Lib>, done: set<Lib>, i: Lib, libs: set<Lib>)
    ensures forall x | x in libs :: AtOrBelow(g, done + {i}, x) <==> AtOrBelow(g, done, x) || i == x || Reaches(g, i, x)
  {
    var done' := done + {i};
    forall x | x in libs ensures AtOrBelow(g, done', x) <==> AtOrBelow(g, done, x) || i == x || Reaches(g, i, x) {
      if AtOrBelow(g, done, x) {
        var d :| d in done && (d == x || Reaches(g, d, x));
        assert d in done';
      }
      if i == x || Reaches(g, i, x) { assert i in done'; }
    }
  }

  /** Remove `t` from the `needs` of everything below `cur`. */
  method Prune(cur: Lib, t: Lib, ghost libs: set<Lib>, ghost g: Graph<Lib>)
    requires Closed(g) && Acyclic(g) && Except(libs, g, t) && Mutual(libs)
    requires cur in libs && cur != t && !Reaches(g, cur, t)
    modifies libs
    ensures Except(libs, g, t) && Mutual(libs)
    ensures forall x | x in libs :: x in t.needed <==> x in old(t.needed) && !Reaches(g, cur, x)
    decreases Descendants(g, cur)
  {
    var todo := cur.needed;
    ghost var done: set<Lib> := {};
    while todo != {}
      invariant todo + done == g[cur]
      invariant Except(libs, g, t) && Mutual(libs)
      invariant forall x | x in libs :: x in t.needed <==> x in old(t.needed) && !AtOrBelow(g, done, x)
      decreases todo
    {
      var i :| i in todo;
      SuccessorAvoids(g, cur, t, i);
      DescendantsShrink(g, cur, i);
      Cut(i, t, libs, g);
      Prune(i, t, libs, g);
      AtOrBelowAdd(g, done, i, libs);
      todo, done := todo - {i}, done + {i};
    }
    forall x | x in libs ensures Reaches(g, cur, x) <==> AtOrBelow(g, done, x) {
      BelowIsAtOrBelowSuccessors(g, cur, x);
    }
  }

  lemma RecordedClosed(libs: set<Lib>)
    requires Mutual(libs)
    ensures Closed(Recorded(libs))
  {
  }

  /** Some library of `from` leads to `x`. */
  ghost predicate LedTo(g: Graph<Lib>, from: set<Lib>, x: Lib) { exists d | d in from :: Reaches(g, d, x) }

  lemma LedToAdd(g: Graph<Lib>, done: set<Lib>, i: Lib, libs: set<Lib>)
    ensures forall x | x in libs :: LedTo(g, done + {i}, x) <==> LedTo(g, done, x) || Reaches(g, i, x)
  {
    var done' := done + {i};
    forall x | x in libs ensures LedTo(g, done', x) <==> LedTo(g, done, x) || Reaches(g, i, x) {
      if LedTo(g, done, x) {
        var d :| d in done && Reaches(g, d, x);
        assert d in done';
      }
      if Reaches(g, i, x) { assert i in done'; }
    }
  }

  lemma UserAvoids(g: Graph<Lib>, t: Lib, i: Lib)
    requires Acyclic(g) && t in g && i in g[t]
    ensures i != t && !Reaches(g, i, t)
  {
    if i == t || Reaches(g, i, t) { EdgeThenReaches(g, t, i, t); }
  }

  lemma PruneComplete(libs: set<Lib>, g: Graph<Lib>, t: Lib)
    requires Except(libs, g, t) && Closed(g) && Mutual(libs)
    requires forall x | x in libs :: x in t.needed <==> x in g[t] && !LedTo(g, g[t], x)
    ensures PrunedAt(g, Recorded(libs), t)
  {
    forall x | x in libs ensures LedTo(g, g[t], x) <==> Implied(g, t, x) {
      if Implied(g, t, x) {
        var c :| c in Succ(g, t) && Reaches(g, c, x);
      }
    }
  }

  /** Drop the implied edges out of `t`: prune below each library that needed it. */
  method PruneFrom(t: Lib, ghost libs: set<Lib>)
    requires t in libs && Mutual(libs) && Acyclic(Recorded(libs))
    modifies libs
    ensures Mutual(libs) && PrunedAt(old(Recorded(libs)), Recorded(libs), t)
  {
    ghost var g := Recorded(libs);
    RecordedClosed(libs);
    var todo := t.needed;
    ghost var done: set<Lib> := {};
    while todo != {}
      invariant todo + done == g[t]
      invariant Except(libs, g, t) && Mutual(libs)
      invariant forall x | x in libs :: x in t.needed <==> x in g[t] && !LedTo(g, done, x)
      decreases todo
    {
      var i :| i in todo;
      UserAvoids(g, t, i);
      Prune(i, t, libs, g);
      LedToAdd(g, done, i, libs);
      todo, done := todo - {i}, done + {i};
    }
    PruneComplete(libs, g, t);
  }

  /** Reduced libraries stay reduced when other libraries' edges are dropped. */
  lemma DoneStaysReduced(g: Graph<Lib>, h: Graph<Lib>, t: Lib, done: set<Lib>)
    requires PrunedAt(g, h, t) && done <= g.Keys && t !in done && forall a | a in done :: ReducedAt(g, a)
    ensures forall a | a in done :: ReducedAt(h, a)
  {
    PrunedBelow(g, h, t);
    forall a | a in done ensures ReducedAt(h, a) {
      assert ReducedAt(g, a);
      ReducedStays(g, h, a);
    }
  }

  /** Build the graph and prune it. On an acyclic symbol graph the result is its
      transitive reduction: the same reachability, no implied edge, and `needs` still
      the inverse of `needed`. */
  method ComputeGraph(libs: set<Lib>)
    requires forall l | l in libs :: l.needs == {} && l.needed == {}
    requires Acyclic(SymbolGraph(libs))
    modifies libs
    ensures Mutual(libs)
    ensures SameReach(SymbolGraph(libs), Recorded(libs))
    ensures Reduced(Recorded(libs))
    ensures Below(Recorded(libs), SymbolGraph(libs))
  {
    BuildGraph(libs);
    ghost var all := SymbolGraph(libs);
    var todo := libs;
    ghost var done: set<Lib> := {};
    while todo != {}
      invariant todo + done == libs && todo !! done
      invariant Mutual(libs) && Below(Recorded(libs), all) && SameReach(all, Recorded(libs))
      invariant forall a | a in done :: ReducedAt(Recorded(libs), a)
      decreases todo
    {
      var t :| t in todo;
      ghost var g := Recorded(libs);
      AcyclicBelow(g, all);
      RecordedClosed(libs);
      PruneFrom(t, libs);
      ghost var h := Recorded(libs);
      PruneKeepsReach(g, h, t);
      PrunedBelow(g, h, t);
      DoneStaysReduced(g, h, t, done);
      todo, done := todo - {t}, done + {t};
    }
  }

  /** The outcome does not depend on the order in which the sets are walked: any graph
      that meets the contract of `ComputeGraph` is this one, and every graph with the
      same reachability contains it. */
  lemma OutcomeUnique(libs: set<Lib>, g: Graph<Lib>, h: Graph<Lib>)
    requires SameReach(SymbolGraph(libs), g) && SameReach(SymbolGraph(libs), h)
    requires Closed(g) && Closed(h) && Reduced(g)
    ensures forall a | a in g :: g[a] <= h[a]
    ensures Reduced(h) ==> g == h
  {
    forall a | a in g ensures g[a] <= h[a] {
      forall b | b in g[a] ensures b in h[a] { EdgeIndispensable(g, h, a, b); }
    }
    if Reduced(h) { ReductionUnique(g, h); }
  }
}
