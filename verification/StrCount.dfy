/** Counting the occurrences of a string in another, left to right and without overlap. */
module StrCount {
  import opened Options

  predicate Occurs(h: string, needle: string, p: nat) {
    p + |needle| <= |h| && h[p..p + |needle|] == needle
  }

  /** The first occurrence at or after `at`, as `strstr` finds it. */
  method StrStr(h: string, needle: string, at: nat) returns (r: Option<nat>)
    requires at <= |h|
    ensures r == Next(h, needle, at)
  {
    var p := at;
    while p <= |h|
      invariant at <= p <= |h| + 1
      invariant Next(h, needle, at) == if p <= |h| then Next(h, needle, p) else None
    {
      if p + |needle| <= |h| && h[p..p + |needle|] == needle { return Some(p); }
      p := p + 1;
    }
    return None;
  }

  function Next(h: string, needle: string, at: nat): (r: Option<nat>)
    requires at <= |h|
    ensures r.Some? ==> at <= r.value <= |h| && Occurs(h, needle, r.value)
    ensures forall p: nat | Occurs(h, needle, p) && at <= p :: r.Some? && r.value <= p
    decreases |h| - at
  {
    if Occurs(h, needle, at) then Some(at) else if at == |h| then None else Next(h, needle, at + 1)
  }

  /** Occurrences of the needle that do not overlap, none before `at`. */
  ghost predicate Packing(h: string, needle: string, at: nat, ps: set<nat>) {
    && (forall p | p in ps :: at <= p && Occurs(h, needle, p))
    && (forall p, q | p in ps && q in ps && p < q :: p + |needle| <= q)
  }

  /** The greatest number of occurrences that do not overlap. */
  ghost predicate IsMost(h: string, needle: string, n: nat) {
    && (exists ps :: Packing(h, needle, 0, ps) && |ps| == n)
    && (forall ps | Packing(h, needle, 0, ps) :: |ps| <= n)
  }

  /** At most one occurrence of a packing starts inside the first one there is. */
  lemma DropFirst(h: string, needle: string, at: nat, ps: set<nat>) returns (rest: set<nat>)
    requires at <= |h| && Packing(h, needle, at, ps) && Next(h, needle, at).Some?
    ensures Packing(h, needle, Next(h, needle, at).value + |needle|, rest) && |ps| <= |rest| + 1
  {
    var end := Next(h, needle, at).value + |needle|;
    rest := set p | p in ps && p >= end;
    if p :| p in ps && p < end {
      assert ps == rest + {p};
    } else {
      assert ps == rest;
    }
  }

  lemma NoneLeft(h: string, needle: string, at: nat, ps: set<nat>)
    requires at <= |h| && Packing(h, needle, at, ps) && Next(h, needle, at) == None
    ensures ps == {}
  {
    assert forall p | p in ps :: !Occurs(h, needle, p);
  }

  /** The number of occurrences the scan from `at` takes. */
  ghost function Greedy(h: string, needle: string, at: nat): nat
    requires at <= |h| && needle != ""
    decreases |h| - at
  {
    match Next(h, needle, at) case None => 0 case Some(p) => 1 + Greedy(h, needle, p + |needle|)
  }

  lemma {:induction false} GreedyIsBound(h: string, needle: string, at: nat, ps: set<nat>)
    requires at <= |h| && needle != "" && Packing(h, needle, at, ps)
    ensures |ps| <= Greedy(h, needle, at)
    decreases |h| - at
  {
    if Next(h, needle, at) == None {
      NoneLeft(h, needle, at, ps);
    } else {
      var rest := DropFirst(h, needle, at, ps);
      GreedyIsBound(h, needle, Next(h, needle, at).value + |needle|, rest);
    }
  }

  lemma {:induction false} GreedyIsPacking(h: string, needle: string, at: nat) returns (ps: set<nat>)
    requires at <= |h| && needle != ""
    ensures Packing(h, needle, at, ps) && |ps| == Greedy(h, needle, at)
    decreases |h| - at
  {
    var first := Next(h, needle, at);
    if first.None? { return {}; }
    var rest := GreedyIsPacking(h, needle, first.value + |needle|);
    ps := AddFirst(h, needle, at, first.value, rest);
  }

  lemma AddFirst(h: string, needle: string, at: nat, p: nat, rest: set<nat>) returns (ps: set<nat>)
    requires needle != "" && at <= p && Occurs(h, needle, p) && Packing(h, needle, p + |needle|, rest)
    ensures Packing(h, needle, at, ps) && |ps| == 1 + |rest|
  {
    assert p !in rest;
    ps := {p} + rest;
  }

  lemma GreedyIsMost(h: string, needle: string)
    requires needle != ""
    ensures IsMost(h, needle, Greedy(h, needle, 0))
  {
    var ps := GreedyIsPacking(h, needle, 0);
    forall qs | Packing(h, needle, 0, qs) ensures |qs| <= Greedy(h, needle, 0) {
      GreedyIsBound(h, needle, 0, qs);
    }
  }

  method Scan(h: string, needle: string) returns (i: nat)
    requires needle != ""
    ensures i == Greedy(h, needle, 0)
  {
    i := 0;
    var at := 0;
    var r := StrStr(h, needle, at);
    while r.Some?
      invariant at <= |h| && r == Next(h, needle, at)
      invariant i + Greedy(h, needle, at) == Greedy(h, needle, 0)
      decreases |h| - at
    {
      i := i + 1;
      at := r.value + |needle|;
      r := StrStr(h, needle, at);
    }
  }

  /** The greedy count is the greatest possible; the scan moves on because the needle is not empty. */
  method StrCount(h: string, needle: string) returns (i: nat)
    requires needle != ""
    ensures IsMost(h, needle, i)
  {
    GreedyIsMost(h, needle);
    i := Scan(h, needle);
  }

  /** Where the scan stands after `n` rounds of the loop, or nothing once the loop has ended. */
  function After(h: string, needle: string, n: nat): (r: Option<nat>)
    ensures r.Some? ==> r.value <= |h|
  {
    if n == 0 then Some(0)
    else
      match After(h, needle, n - 1)
      case None => None
      case Some(at) => match Next(h, needle, at) case None => None case Some(p) => Some(p + |needle|)
  }

  lemma {:induction false} RoundsAdvance(h: string, needle: string, n: nat)
    requires After(h, needle, n).Some?
    ensures n * |needle| <= After(h, needle, n).value
  {
    if n == 0 {
    } else {
      RoundsAdvance(h, needle, n - 1);
    }
  }

  lemma {:induction false} EmptyNeedleStays(h: string, n: nat)
    ensures After(h, "", n) == Some(0)
  {
    if n == 0 {
    } else {
      EmptyNeedleStays(h, n - 1);
    }
  }

  lemma Ends(h: string, needle: string)
    requires needle != ""
    ensures After(h, needle, |h| + 1) == None
  {
    var n := |h| + 1;
    if After(h, needle, n).Some? {
      RoundsAdvance(h, needle, n);
      Times(n, |needle|);
    }
  }

  lemma Times(a: nat, b: nat)
    requires b >= 1
    ensures a * b >= a
  {
  }

  /** The loop ends on every haystack exactly when the needle is not empty. */
  lemma EndsIffNeedleNotEmpty(h: string, needle: string)
    ensures (exists n: nat :: After(h, needle, n) == None) <==> needle != ""
  {
    if needle == "" {
      forall n: nat ensures After(h, needle, n) != None { EmptyNeedleStays(h, n); }
    } else {
      Ends(h, needle);
    }
  }
}
