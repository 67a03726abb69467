/** Reachability in finite directed graphs, and what it takes to drop the implied edges
    of an acyclic one without changing it. */
module Graphs {

  /** Successor sets of the vertices. */
  type Graph<!T> = map<T, set<T>>

  ghost function Succ<T>(g: Graph<T>, a: T): set<T> { if a in g then g[a] else {} }

  ghost predicate Closed<T>(g: Graph<T>) { forall a | a in g :: g[a] <= g.Keys }

  /** A walk of exactly `n` edges. */
  ghost predicate Walk<T>(g: Graph<T>, a: T, b: T, n: nat)
    decreases n
  {
    if n == 0 then a == b else exists c | c in Succ(g, a) :: Walk(g, c, b, n - 1)
  }

  /** A walk of at least one edge. */
  ghost predicate Reaches<T>(g: Graph<T>, a: T, b: T) { exists n: nat :: n >= 1 && Walk(g, a, b, n) }

  ghost predicate Acyclic<T>(g: Graph<T>) { forall a | a in g :: !Reaches(g, a, a) }

  ghost predicate Below<T>(g: Graph<T>, h: Graph<T>) {
    g.Keys == h.Keys && forall a | a in g :: g[a] <= h[a]
  }

  /** Same vertices, same reachability. */
  ghost predicate SameReach<T>(g: Graph<T>, h: Graph<T>) {
    g.Keys == h.Keys && forall a, b | a in g && b in g :: Reaches(g, a, b) <==> Reaches(h, a, b)
  }

  /** An edge is implied when some other successor leads to its target. */
  ghost predicate Implied<T>(g: Graph<T>, a: T, b: T) {
    exists c | c in Succ(g, a) :: Reaches(g, c, b)
  }

  ghost predicate ReducedAt<T>(g: Graph<T>, a: T) { forall b | b in Succ(g, a) :: !Implied(g, a, b) }

  ghost predicate Reduced<T>(g: Graph<T>) { forall a | a in g :: ReducedAt(g, a) }

  lemma {:induction false} WalkTrans<T>(g: Graph<T>, a: T, b: T, c: T, n: nat, m: nat)
    requires Walk(g, a, b, n) && Walk(g, b, c, m)
    ensures Walk(g, a, c, n + m)
    decreases n
  {
    if n == 0 {
    } else {
      var d :| d in Succ(g, a) && Walk(g, d, b, n - 1);
      WalkTrans(g, d, b, c, n - 1, m);
    }
  }

  lemma ReachTrans<T>(g: Graph<T>, a: T, b: T, c: T)
    requires Reaches(g, a, b) && Reaches(g, b, c)
    ensures Reaches(g, a, c)
  {
    var n: nat :| n >= 1 && Walk(g, a, b, n);
    var m: nat :| m >= 1 && Walk(g, b, c, m);
    WalkTrans(g, a, b, c, n, m);
  }

  lemma EdgeReaches<T>(g: Graph<T>, a: T, b: T)
    requires b in Succ(g, a)
    ensures Reaches(g, a, b)
  {
    assert Walk(g, b, b, 0);
    assert Walk(g, a, b, 1);
  }

  lemma EdgeThenReaches<T>(g: Graph<T>, a: T, b: T, c: T)
    requires b in Succ(g, a) && (b == c || Reaches(g, b, c))
    ensures Reaches(g, a, c)
  {
    EdgeReaches(g, a, b);
    if b != c { ReachTrans(g, a, b, c); }
  }

  /** Reaching is stepping to a successor that is the target or reaches it. */
  lemma FirstStep<T>(g: Graph<T>, a: T, b: T) returns (c: T)
    requires Reaches(g, a, b)
    ensures c in Succ(g, a) && (c == b || Reaches(g, c, b))
  {
    var n: nat :| n >= 1 && Walk(g, a, b, n);
    c :| c in Succ(g, a) && Walk(g, c, b, n - 1);
    if n > 1 { assert Reaches(g, c, b); }
  }

  lemma {:induction false} WalkBelow<T>(g: Graph<T>, h: Graph<T>, a: T, b: T, n: nat)
    requires Below(g, h) && Walk(g, a, b, n)
    ensures Walk(h, a, b, n)
    decreases n
  {
    if n == 0 {
    } else {
      var c :| c in Succ(g, a) && Walk(g, c, b, n - 1);
      WalkBelow(g, h, c, b, n - 1);
      assert c in Succ(h, a);
    }
  }

  lemma ReachesBelow<T>(g: Graph<T>, h: Graph<T>, a: T, b: T)
    requires Below(g, h) && Reaches(g, a, b)
    ensures Reaches(h, a, b)
  {
    var n: nat :| n >= 1 && Walk(g, a, b, n);
    WalkBelow(g, h, a, b, n);
  }

  lemma AcyclicBelow<T>(g: Graph<T>, h: Graph<T>)
    requires Below(g, h) && Acyclic(h)
    ensures Acyclic(g)
  {
    forall a | a in g ensures !Reaches(g, a, a) {
      if Reaches(g, a, a) { ReachesBelow(g, h, a, a); }
    }
  }

  /** Changing the successors of `t` does not affect vertices that do not reach `t`. */
  lemma {:induction false} WalkAvoids<T>(g: Graph<T>, h: Graph<T>, t: T, a: T, b: T, n: nat)
    requires g.Keys == h.Keys && (forall x | x in g && x != t :: g[x] == h[x])
    requires a != t && !Reaches(g, a, t) && Walk(g, a, b, n)
    ensures Walk(h, a, b, n)
    decreases n
  {
    if n == 0 {
    } else {
      var c :| c in Succ(g, a) && Walk(g, c, b, n - 1);
      if c == t || Reaches(g, c, t) {
        EdgeThenReaches(g, a, c, t);
      }
      WalkAvoids(g, h, t, c, b, n - 1);
      assert c in Succ(h, a);
    }
  }

  lemma ReachesAvoids<T>(g: Graph<T>, h: Graph<T>, t: T, a: T, b: T)
    requires g.Keys == h.Keys && (forall x | x in g && x != t :: g[x] == h[x])
    requires a != t && !Reaches(g, a, t) && Reaches(g, a, b)
    ensures Reaches(h, a, b)
  {
    var n: nat :| n >= 1 && Walk(g, a, b, n);
    WalkAvoids(g, h, t, a, b, n);
  }

  // ---- dropping the implied edges of one vertex ----

  /** `h` is `g` without the implied edges out of `t`. */
  ghost predicate PrunedAt<T>(g: Graph<T>, h: Graph<T>, t: T) {
    && t in g && g.Keys == h.Keys
    && (forall x | x in g && x != t :: h[x] == g[x])
    && h[t] == set x | x in g[t] && !Implied(g, t, x)
  }

  lemma PrunedBelow<T>(g: Graph<T>, h: Graph<T>, t: T)
    requires PrunedAt(g, h, t)
    ensures Below(h, g)
  {
  }

  /** The successors of `t` that lead to `x`. */
  ghost function Leading<T>(g: Graph<T>, t: T, x: T): set<T> { set c | c in Succ(g, t) && Reaches(g, c, x) }

  /** Every former successor of `t` is still reached: follow the successors that lead to
      it until one does not lead to any other. */
  lemma {:induction false} StillReached<T>(g: Graph<T>, h: Graph<T>, t: T, x: T)
    requires PrunedAt(g, h, t) && Acyclic(g) && Closed(g) && x in g[t]
    ensures Reaches(h, t, x)
    decreases Leading(g, t, x)
  {
    if !Implied(g, t, x) {
      EdgeReaches(h, t, x);
    } else {
      var c :| c in Succ(g, t) && Reaches(g, c, x);
      LeadingShrinks(g, t, c, x);
      StillReached(g, h, t, c);
      assert c != t && !Reaches(g, c, t) by {
        if c == t { EdgeReaches(g, t, t); }
        if Reaches(g, c, t) { EdgeThenReaches(g, t, c, t); }
      }
      ReachesAvoids(g, h, t, c, x);
      ReachTrans(h, t, c, x);
    }
  }

  lemma LeadingShrinks<T>(g: Graph<T>, t: T, c: T, x: T)
    requires Acyclic(g) && Closed(g) && t in g && c in g[t] && Reaches(g, c, x)
    ensures Leading(g, t, c) < Leading(g, t, x)
  {
    forall d | d in Leading(g, t, c) ensures d in Leading(g, t, x) { ReachTrans(g, d, c, x); }
    assert c in Leading(g, t, x) && c !in Leading(g, t, c);
  }

  lemma {:induction false} WalkSurvives<T>(g: Graph<T>, h: Graph<T>, t: T, a: T, b: T, n: nat)
    requires PrunedAt(g, h, t) && Acyclic(g) && Closed(g) && n >= 1 && Walk(g, a, b, n)
    ensures Reaches(h, a, b)
    decreases n
  {
    var c :| c in Succ(g, a) && Walk(g, c, b, n - 1);
    if a == t { StillReached(g, h, t, c); } else { EdgeReaches(h, a, c); }
    if n > 1 {
      WalkSurvives(g, h, t, c, b, n - 1);
      ReachTrans(h, a, c, b);
    }
  }

  /** Pruning one vertex keeps reachability exactly and leaves that vertex reduced. */
  lemma PruneKeepsReach<T>(g: Graph<T>, h: Graph<T>, t: T)
    requires PrunedAt(g, h, t) && Acyclic(g) && Closed(g)
    ensures SameReach(g, h) && ReducedAt(h, t)
  {
    PrunedBelow(g, h, t);
    forall a, b | a in g && b in g ensures Reaches(g, a, b) <==> Reaches(h, a, b) {
      if Reaches(g, a, b) {
        var n: nat :| n >= 1 && Walk(g, a, b, n);
        WalkSurvives(g, h, t, a, b, n);
      }
      if Reaches(h, a, b) { ReachesBelow(h, g, a, b); }
    }
    ReducedStays(g, h, t);
  }

  lemma ReducedStays<T>(g: Graph<T>, h: Graph<T>, a: T)
    requires Below(h, g) && a in g && forall b | b in h[a] :: !Implied(g, a, b)
    ensures ReducedAt(h, a)
  {
    forall b | b in Succ(h, a) ensures !Implied(h, a, b) {
      if Implied(h, a, b) {
        var c :| c in Succ(h, a) && Reaches(h, c, b);
        ReachesBelow(h, g, c, b);
        assert Implied(g, a, b);
      }
    }
  }

  // ---- the transitive reduction is unique ----

  /** An edge of a reduced graph belongs to every graph with the same reachability. */
  lemma EdgeIndispensable<T>(g: Graph<T>, h: Graph<T>, a: T, b: T)
    requires SameReach(g, h) && Closed(g) && Closed(h) && Reduced(g) && a in g && b in g[a]
    ensures b in h[a]
  {
    assert ReducedAt(g, a) && !Implied(g, a, b);
    EdgeReaches(g, a, b);
    var c := FirstStep(h, a, b);
    if c != b {
      EdgeReaches(h, a, c);
      assert Reaches(g, a, c) && Reaches(g, c, b);
      var d := FirstStep(g, a, c);
      if d != c { ReachTrans(g, d, c, b); }
    }
  }

  /** So two reduced graphs with the same reachability are the same graph. */
  lemma ReductionUnique<T>(g: Graph<T>, h: Graph<T>)
    requires SameReach(g, h) && Closed(g) && Closed(h) && Reduced(g) && Reduced(h)
    ensures g == h
  {
    forall a | a in g ensures g[a] == h[a] {
      forall b | b in g[a] ensures b in h[a] { EdgeIndispensable(g, h, a, b); }
      forall b | b in h[a] ensures b in g[a] { EdgeIndispensable(h, g, a, b); }
    }
  }
}
