/** The intrusive circular doubly linked list under every table of the daemon: its
    operations act on the sequence of entries, and its consistency check accepts exactly
    the intact rings, on any heap. */
module CircularList {

  class Node {
    var next: Node
    var prev: Node

    /** A node linked to itself, which is also an empty list's head. */
    constructor ()
      ensures next == this && prev == this
    {
      next, prev := this, this;
    }
  }

  /** The nodes of `r`, in this order, form a closed ring linked both ways. */
  ghost predicate Ring(r: seq<Node>)
    reads r
  {
    && |r| > 0
    && (forall i, j | 0 <= i < j < |r| :: r[i] != r[j])
    && (forall i | 0 <= i < |r| - 1 :: r[i].next == r[i + 1])
    && (forall i | 1 <= i < |r| :: r[i].prev == r[i - 1])
    && r[|r| - 1].next == r[0] && r[0].prev == r[|r| - 1]
  }

  /** The list with head `h` holds the entries `s`. */
  ghost predicate IsList(h: Node, s: seq<Node>)
    reads h, s
  {
    Ring([h] + s)
  }

  // ---- queries ----

  method HeadInit(h: Node)
    modifies h
    ensures IsList(h, [])
  {
    h.next, h.prev := h, h;
  }

  method IsEmpty(h: Node, ghost s: seq<Node>) returns (r: bool)
    requires IsList(h, s)
    ensures r <==> s == []
  {
    ghost var ring := [h] + s;
    r := h.next == h;
    assert s != [] ==> ring[0].next == ring[1];
  }

  method Tail(h: Node, ghost s: seq<Node>) returns (n: Node?)
    requires IsList(h, s)
    ensures s == [] ==> n == null
    ensures s != [] ==> n == s[|s| - 1]
  {
    var empty := IsEmpty(h, s);
    n := if empty then null else h.prev;
  }

  // ---- insertion and removal at any place ----

  /** Insert `n` after position `k` of the ring (0 is the head). */
  method AddAfter(p: Node, n: Node, ghost h: Node, ghost s: seq<Node>, ghost k: nat)
    requires IsList(h, s) && k <= |s| && p == ([h] + s)[k] && n != h && n !in s
    modifies n, p, p.next
    ensures IsList(h, s[..k] + [n] + s[k..])
  {
    ghost var r := [h] + s;
    ghost var q := if k < |s| then k + 1 else 0;
    assert p == r[k] && p.next == r[q];
    n.next := p.next;
    n.prev := p;
    p.next.prev := n;
    p.next := n;
    assert Splices(r, n, k);
    Spliced(r, n, k);
    assert [h] + (s[..k] + [n] + s[k..]) == r[..k + 1] + [n] + r[k + 1..];
  }

  /** `r` is closed by the links of a ring into which `n` is entered after position `k`. */
  ghost predicate Splices(r: seq<Node>, n: Node, k: nat)
    requires k < |r|
    reads r, n
  {
    var q := if k + 1 < |r| then k + 1 else 0;
    && (forall i, j | 0 <= i < j < |r| :: r[i] != r[j]) && n !in r
    && n.prev == r[k] && n.next == r[q] && r[k].next == n && r[q].prev == n
    && (forall i | 0 <= i < |r| - 1 && i != k :: r[i].next == r[i + 1])
    && (forall i | 1 <= i < |r| && i != q :: r[i].prev == r[i - 1])
    && (k < |r| - 1 ==> r[|r| - 1].next == r[0] && r[0].prev == r[|r| - 1])
  }

  lemma Spliced(r: seq<Node>, n: Node, k: nat)
    requires k < |r| && Splices(r, n, k)
    ensures Ring(r[..k + 1] + [n] + r[k + 1..])
  {
    var r' := r[..k + 1] + [n] + r[k + 1..];
    Inserted(r, n, k + 1, r');
    forall i | 0 <= i < |r'| - 1 ensures r'[i].next == r'[i + 1] {
      if i > k + 1 { assert r'[i] == r[i - 1] && r'[i + 1] == r[i]; }
    }
    forall i | 1 <= i < |r'| ensures r'[i].prev == r'[i - 1] {
      if i > k + 2 { assert r'[i] == r[i - 1] && r'[i - 1] == r[i - 2]; }
    }
    forall i, j | 0 <= i < j < |r'| ensures r'[i] != r'[j] {
      assert r'[i] == n || r'[i] == r[if i <= k then i else i - 1];
      assert r'[j] == n || r'[j] == r[if j <= k then j else j - 1];
    }
    var m := |r| - 1;
    if k < m {
      assert r'[|r|] == r[m];
    } else {
      assert r'[|r|] == n;
    }
  }

  /** Index facts about an insertion. */
  lemma Inserted(r: seq<Node>, n: Node, k: nat, r': seq<Node>)
    requires k <= |r| && r' == r[..k] + [n] + r[k..]
    ensures |r'| == |r| + 1 && r'[k] == n
    ensures forall i | 0 <= i < k :: r'[i] == r[i]
    ensures forall i | k < i < |r'| :: r'[i] == r[i - 1]
  {
  }

  method Add(h: Node, n: Node, ghost s: seq<Node>)
    requires IsList(h, s) && n != h && n !in s
    modifies n, h, h.next
    ensures IsList(h, [n] + s)
  {
    AddAfter(h, n, h, s, 0);
    assert s[..0] + [n] + s[0..] == [n] + s;
  }

  /** Insert `n` before the entry at position `i`, or before the head: at the end. */
  method AddBefore(p: Node, n: Node, ghost h: Node, ghost s: seq<Node>, ghost i: nat)
    requires IsList(h, s) && i <= |s| && p == (if i < |s| then s[i] else h) && n != h && n !in s
    modifies n, p, p.prev
    ensures IsList(h, s[..i] + [n] + s[i..])
  {
    ghost var r := [h] + s;
    assert p == r[if i < |s| then i + 1 else 0] && p.prev == r[i];
    n.next := p;
    n.prev := p.prev;
    p.prev.next := n;
    p.prev := n;
    Spliced(r, n, i);
    assert [h] + (s[..i] + [n] + s[i..]) == r[..i + 1] + [n] + r[i + 1..];
  }

  method AddTail(h: Node, n: Node, ghost s: seq<Node>)
    requires IsList(h, s) && n != h && n !in s
    modifies n, h, h.prev
    ensures IsList(h, s + [n])
  {
    AddBefore(h, n, h, s, |s|);
    assert s[..|s|] + [n] + s[|s|..] == s + [n];
  }

  /** Unlink the entry at position `k`. */
  method Del(n: Node, ghost h: Node, ghost s: seq<Node>, ghost k: nat)
    requires IsList(h, s) && k < |s| && n == s[k]
    modifies n.next, n.prev
    ensures IsList(h, s[..k] + s[k + 1..])
  {
    ghost var r := [h] + s;
    assert n == r[k + 1] && n.prev == r[k] && n.next == if k + 2 < |r| then r[k + 2] else h;
    n.next.prev := n.prev;
    n.prev.next := n.next;
    ghost var r' := [h] + (s[..k] + s[k + 1..]);
    assert |r'| == |r| - 1;
    assert forall i | 0 <= i <= k :: r'[i] == r[i];
    assert forall i | k < i < |r'| :: r'[i] == r[i + 1];
  }

  /** Put `n` in the place of the entry at position `k`. */
  method Swap(o: Node, n: Node, ghost h: Node, ghost s: seq<Node>, ghost k: nat)
    requires IsList(h, s) && k < |s| && o == s[k] && n != h && n !in s
    modifies n, o.next, o.prev
    ensures IsList(h, s[k := n])
  {
    ghost var r := [h] + s;
    assert o == r[k + 1] && o.prev == r[k] && o.next == if k + 2 < |r| then r[k + 2] else h;
    n.next, n.prev := o.next, o.prev;
    n.next.prev := n;
    n.prev.next := n;
    ghost var r' := [h] + s[k := n];
    assert forall i | 0 <= i < |r| :: r'[i] == if i == k + 1 then n else r[i];
  }

  method Pop(h: Node, ghost s: seq<Node>) returns (n: Node?)
    requires IsList(h, s)
    modifies h, h.next, h.next.next
    ensures s == [] ==> n == null && IsList(h, [])
    ensures s != [] ==> n == s[0] && IsList(h, s[1..])
  {
    var empty := IsEmpty(h, s);
    if empty { return null; }
    FirstLinks(h, s);
    n := h.next;
    Del(n, h, s, 0);
    assert s[..0] + s[1..] == s[1..];
  }

  lemma FirstLinks(h: Node, s: seq<Node>)
    requires IsList(h, s) && s != []
    ensures h.next == s[0] && s[0].prev == h
  {
    var ring := [h] + s;
    assert ring[1] == s[0];
  }

  // ---- moving a whole list ----

  ghost predicate Disjoint(a: seq<Node>, b: seq<Node>) {
    forall i, j | 0 <= i < |a| && 0 <= j < |b| :: a[i] != b[j]
  }

  /** Open two rings and join them into one, `b` after `a`. */
  method Sew(aHead: Node, aTail: Node, bHead: Node, bTail: Node, ghost a: seq<Node>, ghost b: seq<Node>)
    requires Ring(a) && Ring(b) && Disjoint(a, b)
    requires aHead == a[0] && aTail == a[|a| - 1] && bHead == b[0] && bTail == b[|b| - 1]
    modifies aHead, aTail, bHead, bTail
    ensures Ring(a + b)
    ensures bHead.prev == aTail && bHead.next == if |b| > 1 then b[1] else aHead
  {
    aHead.prev := bTail;
    bTail.next := aHead;
    aTail.next := bHead;
    bHead.prev := aTail;
    ghost var r := a + b;
    assert forall i | 0 <= i < |a| :: r[i] == a[i];
    assert forall i | |a| <= i < |r| :: r[i] == b[i - |a|];
  }

  /** Take the head of a sewn-in list out of the ring and make it an empty list. */
  method RemoveHead(from: Node, ghost to: Node, ghost s: seq<Node>, ghost t: seq<Node>)
    requires IsList(to, s + [from] + t)
    modifies from, from.next, from.prev
    ensures IsList(to, s + t) && IsList(from, [])
  {
    ghost var st := s + [from] + t;
    ghost var r := [to] + st;
    assert st[|s|] == from == r[|s| + 1];
    Del(from, to, st, |s|);
    assert st[..|s|] + st[|s| + 1..] == s + t;
    assert forall i | 0 <= i < |s + t| :: (s + t)[i] == r[if i < |s| then i + 1 else i + 2];
    HeadInit(from);
  }

  /** Move everything from one list to the end of another: sew in the head and the
      entire list, then remove the head. */
  method AppendList(to: Node, from: Node, ghost s: seq<Node>, ghost t: seq<Node>)
    requires IsList(to, s) && IsList(from, t) && Disjoint([to] + s, [from] + t)
    modifies to, to.prev, from, from.prev, from.next
    ensures IsList(to, s + t) && IsList(from, [])
  {
    ghost var a, b := [to] + s, [from] + t;
    assert |t| > 0 ==> from.next == b[1];
    Sew(to, to.prev, from, from.prev, a, b);
    assert [to] + (s + [from] + t) == a + b;
    RemoveHead(from, to, s, t);
  }

  /** Rotating a ring gives the same ring. */
  lemma Rotated(r: seq<Node>, k: nat)
    requires Ring(r) && k < |r|
    ensures Ring(r[k..] + r[..k])
  {
    var q := r[k..] + r[..k];
    assert forall i | 0 <= i < |r| - k :: q[i] == r[i + k];
    assert forall i | |r| - k <= i < |r| :: q[i] == r[i - (|r| - k)];
  }

  /** A list seen from its first entry on, its head coming last. */
  lemma HeadLast(h: Node, s: seq<Node>)
    requires Ring([h] + s)
    ensures Ring(s + [h])
    ensures h.next == (s + [h])[0]
  {
    var r := [h] + s;
    if s == [] {
      assert s + [h] == r;
    } else {
      Rotated(r, 1);
      assert r[1..] + r[..1] == s + [h];
      assert r[0].next == r[1];
    }
  }

  /** Move everything from one list to the start of another, by the same two moves. */
  method PrependList(to: Node, from: Node, ghost s: seq<Node>, ghost t: seq<Node>)
    requires IsList(to, s) && IsList(from, t) && Disjoint([to] + s, [from] + t)
    modifies to, to.next, from, from.prev, from.next
    ensures IsList(to, t + s) && IsList(from, [])
  {
    ghost var a, b := s + [to], [from] + t;
    assert Disjoint(a, b) by {
      assert forall i | 0 <= i < |a| :: a[i] == ([to] + s)[if i < |s| then i + 1 else 0];
    }
    HeadLast(to, s);
    assert from.next == if |t| > 0 then b[1] else from;
    Sew(to.next, to, from, from.prev, a, b);
    Rotated(a + b, |s|);
    assert (a + b)[|s|..] + (a + b)[..|s|] == [to] + ([] + [from] + (t + s));
    RemoveHead(from, to, [], t + s);
    assert [] + (t + s) == t + s;
  }

  // ---- the consistency check ----

  ghost predicate Linked(nodes: set<Node>)
    reads nodes
  {
    forall n | n in nodes :: n.next in nodes
  }

  /** The node `k` links further on. */
  ghost function Hop(n: Node, k: nat, nodes: set<Node>): (m: Node)
    requires n in nodes && Linked(nodes)
    reads nodes
    ensures m in nodes
  {
    if k == 0 then n else Hop(n, k - 1, nodes).next
  }

  /** Following `next` leads back to `n` after `k` links, each undone by `prev`. */
  ghost predicate Intact(n: Node, k: nat, nodes: set<Node>)
    requires n in nodes && Linked(nodes)
    reads nodes
  {
    && k >= 1 && Hop(n, k, nodes) == n
    && forall i | 0 <= i < k :: Hop(n, i + 1, nodes).prev == Hop(n, i, nodes)
  }

  datatype Verdict = Consistent | ReturnsNull | Aborts

  function Corrupt(abortstr: bool): Verdict { if abortstr then Aborts else ReturnsNull }

  /** Walk the ring once, comparing every `prev` with where the walk came from. This ends
      on every finite heap, however its links are corrupted: as long as the `prev` links
      agree, no node is met twice. The verdict is positive exactly for an intact ring. */
  method CheckNode(node: Node, abortstr: bool, ghost nodes: set<Node>) returns (v: Verdict)
    requires node in nodes && Linked(nodes)
    ensures v == if exists k :: Intact(node, k, nodes) then Consistent else Corrupt(abortstr)
  {
    var p, n := node, node.next;
    ghost var c, seen := 0, {};
    while n != node
      invariant p == Hop(node, c, nodes) && n == Hop(node, c + 1, nodes)
      invariant forall i | 0 <= i < c :: Hop(node, i + 1, nodes).prev == Hop(node, i, nodes)
      invariant forall i, j | 0 <= i < j <= c :: Hop(node, i, nodes) != Hop(node, j, nodes)
      invariant forall x :: x in seen <==> x in nodes && exists i | 1 <= i <= c :: Hop(node, i, nodes) == x
      decreases nodes - seen
    {
      if n.prev != p {
        return Corrupt(abortstr);
      }
      p, n := n, n.next;
      c := c + 1;
      seen := seen + {p};
    }
    if node.prev != p {
      return Corrupt(abortstr);
    }
    assert Intact(node, c + 1, nodes);
    return Consistent;
  }

  /** What the operations above maintain is what the check accepts. */
  lemma IntactList(h: Node, s: seq<Node>, nodes: set<Node>)
    requires IsList(h, s) && h in nodes && Linked(nodes)
    ensures Intact(h, |s| + 1, nodes)
  {
    var r := [h] + s;
    var i := 0;
    while i < |s|
      invariant i <= |s|
      invariant forall j | 0 <= j <= i :: Hop(h, j, nodes) == r[j]
    {
      i := i + 1;
    }
  }
}
