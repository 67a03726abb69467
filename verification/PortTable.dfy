/** The list of mapped ports: lookup by exact or wildcard address, reference
    counting, and the conflict-freedom that makes lookup independent of list order. */
module PortTable {
  import opened Addresses
  import opened Options

  datatype MappedPort = MappedPort(
    owner: nat, local: SockAddr, mapped: SockAddr, wcard: bool, refs: int)

  type Table = seq<MappedPort>

  /** What the kernel answers to a bind request. */
  datatype Bind = BindFailed | Bound(port: nat)

  function Key(p: MappedPort, notMapped: bool): SockAddr {
    if notMapped then p.local else p.mapped
  }

  predicate Hit(p: MappedPort, search: SockAddr, notMapped: bool) {
    && PortOf(search) == PortOf(Key(p, notMapped))
    && (Same(search, Key(p, notMapped)) || p.wcard || IsWildcard(search))
  }

  /** Position of the first listed port that matches, or the list length. */
  function Find(t: Table, search: SockAddr, notMapped: bool): (i: nat)
    ensures i <= |t|
    ensures forall j | 0 <= j < i :: !Hit(t[j], search, notMapped)
    ensures i < |t| ==> Hit(t[i], search, notMapped)
  {
    if t == [] || Hit(t[0], search, notMapped) then 0 else 1 + Find(t[1..], search, notMapped)
  }

  /** As `Find`, for the exact address only. */
  function FindSame(t: Table, search: SockAddr, notMapped: bool): (i: nat)
    ensures i <= |t|
    ensures forall j | 0 <= j < i :: !Same(search, Key(t[j], notMapped))
    ensures i < |t| ==> Same(search, Key(t[i], notMapped))
  {
    if t == [] || Same(search, Key(t[0], notMapped)) then 0 else 1 + FindSame(t[1..], search, notMapped)
  }

  function NewPort(client: nat, local: SockAddr, mapped: SockAddr): MappedPort {
    MappedPort(client, local, mapped, IsWildcard(local), 1)
  }

  /** A fresh mapping: a port number from the host stack unless mapping is switched off. */
  function CreatePort(local: SockAddr, client: nat, noPortMap: bool, bind: Bind, alloc: bool): (r: Option<MappedPort>)
    ensures r.Some? ==> PortOk(r.value) && r.value.local == local && r.value.refs == 1 && r.value.owner == client
    ensures r.Some? <==> alloc && (noPortMap || (!local.Other? && bind.Bound?))
    ensures r.Some? ==> r.value.mapped == if noPortMap then local else WithPort(local, bind.port)
  {
    if noPortMap then
      if alloc then Some(NewPort(client, local, local)) else None
    else if local.Other? || bind.BindFailed? || !alloc then None
    else Some(NewPort(client, local, WithPort(local, bind.port)))
  }

  /** A mapping rebuilt after a restart: binds the recorded port again. The kernel
      hands out a port of its own only when the recorded port is 0. */
  function ReopenPort(local: SockAddr, mapped: SockAddr, client: nat, noPortMap: bool, bind: Bind, alloc: bool)
    : (r: Option<MappedPort>)
    ensures r.Some? ==> PortOk(r.value) && r.value.local == local && r.value.refs == 1 && r.value.owner == client
    ensures r.Some? <==> alloc && SameFamily(local, mapped) && (noPortMap || (!local.Other? && bind.Bound?))
    ensures r.Some? ==>
      r.value.mapped == if noPortMap || PortOf(mapped) != 0 then mapped else WithPort(mapped, bind.port)
  {
    if !SameFamily(local, mapped) then None
    else if noPortMap then
      if alloc then Some(NewPort(client, local, mapped)) else None
    else if local.Other? || bind.BindFailed? || !alloc then None
    else Some(NewPort(client, local, if PortOf(mapped) != 0 then mapped else WithPort(mapped, bind.port)))
  }

  predicate PortOk(p: MappedPort) {
    p.refs >= 1 && p.wcard == IsWildcard(p.local) && SameFamily(p.local, p.mapped)
  }

  ghost predicate ConflictFree(t: Table) {
    forall i, j | 0 <= i < j < |t| :: !Conflict(t[i].local, t[j].local)
  }

  ghost predicate TableOk(t: Table) {
    ConflictFree(t) && forall i | 0 <= i < |t| :: PortOk(t[i])
  }

  /** All references held on local address `a`. */
  function RefsAt(t: Table, a: SockAddr): int {
    if t == [] then 0 else (if t[0].local == a then t[0].refs else 0) + RefsAt(t[1..], a)
  }

  function Bump(t: Table, i: nat, delta: int): Table
    requires i < |t|
  {
    t[i := t[i].(refs := t[i].refs + delta)]
  }

  /** Drop one reference; the entry leaves the list with its last one. */
  function Drop(t: Table, i: nat): Table
    requires i < |t|
  {
    if t[i].refs == 1 then t[..i] + t[i + 1..] else Bump(t, i, -1)
  }

  // ---- what each table change keeps ----

  lemma ConflictSymmetric(a: SockAddr, b: SockAddr)
    ensures Conflict(a, b) == Conflict(b, a)
  {
  }

  /** The linear search refuses exactly the addresses that conflict with the table. */
  lemma MissMeansNoConflict(t: Table, a: SockAddr)
    requires TableOk(t)
    ensures Find(t, a, true) == |t| <==> forall i | 0 <= i < |t| :: !Conflict(a, t[i].local)
  {
    forall i | 0 <= i < |t|
      ensures Hit(t[i], a, true) == Conflict(a, t[i].local)
    {
      assert PortOk(t[i]);
    }
    var k := Find(t, a, true);
    if k < |t| {
      assert Hit(t[k], a, true);
    }
  }

  lemma InsertOk(t: Table, p: MappedPort)
    requires TableOk(t) && PortOk(p) && Find(t, p.local, true) == |t|
    ensures TableOk([p] + t)
  {
    MissMeansNoConflict(t, p.local);
  }

  lemma BumpOk(t: Table, i: nat)
    requires TableOk(t) && i < |t|
    ensures TableOk(Bump(t, i, 1))
  {
  }

  lemma DropOk(t: Table, i: nat)
    requires TableOk(t) && i < |t|
    ensures TableOk(Drop(t, i))
  {
    assert PortOk(t[i]);
    var u := Drop(t, i);
    if t[i].refs == 1 {
      forall j | 0 <= j < |u| ensures u[j] == t[if j < i then j else j + 1] {}
    }
  }

  lemma {:induction false} RefsAtBump(t: Table, i: nat, delta: int, a: SockAddr)
    requires i < |t|
    ensures RefsAt(Bump(t, i, delta), a) == RefsAt(t, a) + (if t[i].local == a then delta else 0)
  {
    if i == 0 {
    } else {
      assert Bump(t, i, delta)[1..] == Bump(t[1..], i - 1, delta);
      RefsAtBump(t[1..], i - 1, delta, a);
    }
  }

  lemma {:induction false} RefsAtRemove(t: Table, i: nat, a: SockAddr)
    requires i < |t|
    ensures RefsAt(t[..i] + t[i + 1..], a) == RefsAt(t, a) - (if t[i].local == a then t[i].refs else 0)
  {
    if i == 0 {
      assert t[..0] + t[1..] == t[1..];
    } else {
      assert (t[..i] + t[i + 1..])[1..] == t[1..][..i - 1] + t[1..][i..];
      RefsAtRemove(t[1..], i - 1, a);
    }
  }

  lemma RefsAtDrop(t: Table, i: nat, a: SockAddr)
    requires i < |t|
    ensures RefsAt(Drop(t, i), a) == RefsAt(t, a) - (if t[i].local == a then 1 else 0)
  {
    if t[i].refs == 1 { RefsAtRemove(t, i, a); } else { RefsAtBump(t, i, -1, a); }
  }

  /** In a conflict-free table the references on an internet address are those of its
      one entry, and an address without references has no entry. */
  lemma {:induction false} RefsAtIsEntry(t: Table, a: SockAddr)
    requires TableOk(t) && !a.Other?
    ensures RefsAt(t, a) == (if FindSame(t, a, true) < |t| then t[FindSame(t, a, true)].refs else 0)
    ensures RefsAt(t, a) == 0 <==> forall i | 0 <= i < |t| :: t[i].local != a
    decreases |t|
  {
    if t == [] {
    } else {
      var u := t[1..];
      assert TableOk(u) by {
        forall i, j | 0 <= i < j < |u| ensures !Conflict(u[i].local, u[j].local) {
          assert u[i] == t[i + 1] && u[j] == t[j + 1];
        }
        forall i | 0 <= i < |u| ensures PortOk(u[i]) { assert u[i] == t[i + 1]; }
      }
      RefsAtIsEntry(u, a);
      assert PortOk(t[0]);
      if t[0].local == a {
        forall i | 0 <= i < |u| ensures u[i].local != a {
          assert u[i] == t[i + 1];
          assert !Conflict(t[0].local, t[i + 1].local);
        }
      } else {
        assert forall i | 0 <= i < |u| :: u[i] == t[i + 1];
        assert forall i | 1 <= i < |t| :: t[i] == u[i - 1];
      }
    }
  }

  // ---- lookup does not depend on list order ----

  lemma UniqueHit(t: Table, a: SockAddr, i: nat, j: nat)
    requires TableOk(t) && !IsWildcard(a) && !a.Other?
    requires i < |t| && j < |t| && Hit(t[i], a, true) && Hit(t[j], a, true)
    ensures i == j
  {
    assert PortOk(t[i]) && PortOk(t[j]);
    assert Conflict(t[i].local, t[j].local);
    ConflictSymmetric(t[i].local, t[j].local);
  }

  /** What a lookup yields. */
  function FirstHit(t: Table, a: SockAddr, notMapped: bool): Option<MappedPort> {
    var i := Find(t, a, notMapped);
    if i < |t| then Some(t[i]) else None
  }

  /** Every order of the table gives the same answer. */
  ghost predicate OrderIrrelevant(t: Table, a: SockAddr, notMapped: bool) {
    forall u: Table | multiset(u) == multiset(t) :: FirstHit(u, a, notMapped) == FirstHit(t, a, notMapped)
  }

  ghost predicate HitsAgree(t: Table, a: SockAddr, notMapped: bool) {
    forall i, j | 0 <= i < |t| && 0 <= j < |t| && Hit(t[i], a, notMapped) && Hit(t[j], a, notMapped) :: t[i] == t[j]
  }

  lemma SameHits(t: Table, u: Table, a: SockAddr, notMapped: bool)
    requires multiset(u) == multiset(t) && HitsAgree(t, a, notMapped)
    ensures FirstHit(u, a, notMapped) == FirstHit(t, a, notMapped)
  {
    var i, j := Find(t, a, notMapped), Find(u, a, notMapped);
    if i < |t| {
      assert t[i] in multiset(t);
      assert t[i] in multiset(u);
      var k :| 0 <= k < |u| && u[k] == t[i];
    }
    if j < |u| {
      assert u[j] in multiset(u);
      assert u[j] in multiset(t);
      var k :| 0 <= k < |t| && t[k] == u[j];
    }
  }

  /** The order in which entry `i` comes first. */
  function ToFront(t: Table, i: nat): Table
    requires i < |t|
  {
    [t[i]] + (t[..i] + t[i + 1..])
  }

  lemma ToFrontFirst(t: Table, i: nat, a: SockAddr, notMapped: bool)
    requires i < |t| && Hit(t[i], a, notMapped)
    ensures multiset(ToFront(t, i)) == multiset(t) && FirstHit(ToFront(t, i), a, notMapped) == Some(t[i])
  {
    assert t == t[..i] + [t[i]] + t[i + 1..];
  }

  /** A lookup gives the same answer in every order of the table if and only if all
      entries that match are equal. */
  lemma OrderIrrelevantIff(t: Table, a: SockAddr, notMapped: bool)
    ensures OrderIrrelevant(t, a, notMapped) <==> HitsAgree(t, a, notMapped)
  {
    if HitsAgree(t, a, notMapped) {
      forall u: Table | multiset(u) == multiset(t) ensures FirstHit(u, a, notMapped) == FirstHit(t, a, notMapped) {
        SameHits(t, u, a, notMapped);
      }
    }
    if OrderIrrelevant(t, a, notMapped) {
      forall i, j | 0 <= i < |t| && 0 <= j < |t| && Hit(t[i], a, notMapped) && Hit(t[j], a, notMapped)
        ensures t[i] == t[j]
      {
        ToFrontFirst(t, i, a, notMapped);
        ToFrontFirst(t, j, a, notMapped);
      }
    }
  }

  /** In a conflict-free table that is always so for a specific local address. */
  lemma LookupIgnoresOrder(t: Table, a: SockAddr)
    requires TableOk(t) && !IsWildcard(a) && !a.Other?
    ensures OrderIrrelevant(t, a, true)
  {
    forall i, j | 0 <= i < |t| && 0 <= j < |t| && Hit(t[i], a, true) && Hit(t[j], a, true) ensures t[i] == t[j] {
      UniqueHit(t, a, i, j);
    }
    OrderIrrelevantIff(t, a, true);
  }

  /** For a wildcard address it is so if and only if no two different ports have its number. */
  lemma WildcardLookupIff(t: Table, a: SockAddr)
    requires IsWildcard(a)
    ensures OrderIrrelevant(t, a, true) <==>
      forall i, j | 0 <= i < |t| && 0 <= j < |t| && PortOf(t[i].local) == PortOf(a) == PortOf(t[j].local) :: t[i] == t[j]
  {
    OrderIrrelevantIff(t, a, true);
    assert forall i | 0 <= i < |t| :: Hit(t[i], a, true) <==> PortOf(t[i].local) == PortOf(a);
  }

  /** And such ports do get listed together: any two specific addresses with one number. */
  lemma WildcardLookupDependsOnOrder(p: MappedPort, q: MappedPort, a: SockAddr)
    requires PortOk(p) && PortOk(q) && !IsWildcard(p.local) && !IsWildcard(q.local) && p.local != q.local
    requires IsWildcard(a) && PortOf(a) == PortOf(p.local) == PortOf(q.local)
    ensures TableOk([p, q]) && !OrderIrrelevant([p, q], a, true)
  {
    WildcardLookupIff([p, q], a);
    assert [p, q][0] != [p, q][1];
  }

  /** Taking a reference and giving it back leaves the table as it was. */
  lemma BumpBack(t: Table, i: nat)
    requires i < |t|
    ensures Bump(Bump(t, i, 1), i, -1) == t
  {
  }

  /** The lookup by equality finds the entry for its own address. */
  lemma FoundAt(t: Table, i: nat, a: SockAddr)
    requires TableOk(t) && i < |t| && t[i].local == a && !a.Other?
    ensures FindSame(t, a, true) == i
  {
    forall j | 0 <= j < i ensures !Same(a, t[j].local) {
      assert !Conflict(t[j].local, t[i].local);
    }
  }

  /** So does the lookup with wildcards. */
  lemma FoundFirst(t: Table, i: nat, a: SockAddr)
    requires TableOk(t) && i < |t| && t[i].local == a && !a.Other?
    ensures Find(t, a, true) == i
  {
    assert PortOk(t[i]) && Hit(t[i], a, true);
    forall j | 0 <= j < i ensures !Hit(t[j], a, true) {
      assert PortOk(t[j]) && !Conflict(t[j].local, a);
    }
  }
}
