/** What each handler does, case by case and in terms of addresses, list entries and message
    fields: when it succeeds, whom it tells what, which object it leaves behind and which
    message it queues. */
module Effects {
  import opened Addresses
  import opened Options
  import opened PortTable
  import opened Requests
  import opened Daemon
  import C = Conversations

  // ---- adding a mapping ----

  /** Some listed address may not be mapped together with `a`. */
  ghost predicate Blocked(t: Table, a: SockAddr) {
    exists p :: p in t && Conflict(a, p.local)
  }

  /** The host stack and the allocator grant a port for `a`. */
  predicate Grantable(a: SockAddr, env: PortEnv) {
    env.alloc && (env.noPortMap || (!a.Other? && env.bind.Bound?))
  }

  /** `a` is a listed wildcard address, which several clients may share. */
  ghost predicate Shared(t: Table, a: SockAddr) {
    IsWildcard(a) && exists p :: p in t && p.local == a
  }

  lemma FoundIsBlocked(t: Table, a: SockAddr)
    requires TableOk(t)
    ensures Find(t, a, true) < |t| <==> Blocked(t, a)
  {
    MissMeansNoConflict(t, a);
    var i := Find(t, a, true);
    if i < |t| {
      assert PortOk(t[i]) && Hit(t[i], a, true);
      assert t[i] in t && Conflict(a, t[i].local);
    }
  }

  lemma SlotIsBlocked(s: State, local: SockAddr, client: nat, env: PortEnv)
    requires TableOk(s.ports)
    ensures var slot := SlotFor(s, local, client, env);
      && (slot.Listed? <==> Blocked(s.ports, local))
      && (slot.NoSlot? <==> !Blocked(s.ports, local) && !Grantable(local, env))
  {
    FoundIsBlocked(s.ports, local);
  }

  lemma ListedIsShared(s: State, local: SockAddr, i: nat)
    requires TableOk(s.ports) && i == Find(s.ports, local, true) < |s.ports|
    ensures Same(local, s.ports[i].local) && s.ports[i].wcard <==> Shared(s.ports, local)
  {
    assert PortOk(s.ports[i]);
    if Shared(s.ports, local) {
      var k :| 0 <= k < |s.ports| && s.ports[k].local == local;
      FoundFirst(s.ports, k, local);
    }
  }

  /** An add succeeds if and only if its reply gets through and the address is either free
      to be mapped or a wildcard that is listed already. A conflicting address is refused
      with code 12, a port that cannot be had with code 11; a reply that fails says nothing. */
  lemma AddMappingDecides(s: State, client: nat, nl: NlHeader, local: SockAddr, env: PortEnv, reply: bool)
    requires Inv(s)
    ensures var r := AddMapping(s, client, nl, local, env, reply);
      var blocked, shared := Blocked(s.ports, local), Shared(s.ports, local);
      && (r.ok <==> reply && (shared || (!blocked && Grantable(local, env))))
      && (blocked && !shared ==> r.s.out == s.out + [Failure(client, nl.seqno, 12)])
      && (!blocked && !Grantable(local, env) ==> r.s.out == s.out + [Failure(client, nl.seqno, 11)])
      && ((shared || (!blocked && Grantable(local, env))) && !reply ==> r.s.out == s.out)
  {
    SlotIsBlocked(s, local, client, env);
    var i := Find(s.ports, local, true);
    if i < |s.ports| {
      ListedIsShared(s, local, i);
    } else {
      MissMeansNoConflict(s.ports, local);
      NotShared(s, local);
    }
  }

  /** The port that a client gets for a free address. */
  function Granted(client: nat, local: SockAddr, env: PortEnv): MappedPort
    requires Grantable(local, env)
  {
    MappedPort(client, local, if env.noPortMap then local else WithPort(local, env.bind.port), IsWildcard(local), 1)
  }

  /** What a successful add does: one more reference on the listed wildcard, or a new port at
      the head of the list; one reply; and nothing else. */
  lemma AddMappingResult(s: State, client: nat, nl: NlHeader, local: SockAddr, env: PortEnv, reply: bool)
    requires Inv(s) && AddMapping(s, client, nl, local, env, reply).ok
    ensures var s' := AddMapping(s, client, nl, local, env, reply).s;
      if Blocked(s.ports, local) then
        exists i | 0 <= i < |s.ports| :: s.ports[i].local == local
          && s' == s.(ports := s.ports[i := s.ports[i].(refs := s.ports[i].refs + 1)],
                      out := s.out + [MappingReply(nl, local, s.ports[i].mapped)], acquired := s.acquired + multiset{local})
      else
        && Grantable(local, env)
        && var p := Granted(client, local, env);
           s' == s.(ports := [p] + s.ports, out := s.out + [MappingReply(nl, local, p.mapped)],
                    acquired := s.acquired + multiset{local})
  {
    FoundIsBlocked(s.ports, local);
    var i := Find(s.ports, local, true);
    if i < |s.ports| { assert s.ports[i].local == local; }
  }

  lemma NotShared(s: State, local: SockAddr)
    requires !Blocked(s.ports, local)
    ensures !Shared(s.ports, local)
  {
    assert forall p | p in s.ports && IsWildcard(local) && p.local == local :: Conflict(local, p.local);
  }

  // ---- a report after a restart ----

  /** The port of a mapping reported for a free address. */
  function Reopened(client: nat, local: SockAddr, mapped: SockAddr, env: PortEnv): MappedPort
    requires SameFamily(local, mapped) && Grantable(local, env)
  {
    MappedPort(client, local, if env.noPortMap || PortOf(mapped) != 0 then mapped else WithPort(mapped, env.bind.port),
               IsWildcard(local), 1)
  }

  /** The mapping is listed as reported. */
  ghost predicate Reported(t: Table, local: SockAddr, mapped: SockAddr) {
    exists p :: p in t && p.local == local && p.mapped == mapped && !local.Other? && !mapped.Other?
  }

  /** A report succeeds if and only if the mapping is listed as reported, or the address is
      free and its port can be opened again. A report that contradicts the table is refused
      with code 12, a port that cannot be opened with code 11. */
  lemma MapInfoDecides(s: State, client: nat, nl: NlHeader, local: SockAddr, mapped: SockAddr, env: PortEnv)
    requires Inv(s)
    ensures var r := MapInfo(s, client, nl, local, mapped, env);
      var blocked := Blocked(s.ports, local);
      && (r.ok <==> if blocked then Reported(s.ports, local, mapped) else SameFamily(local, mapped) && Grantable(local, env))
      && r.s.out == s.out + (if r.ok then [] else [Failure(client, nl.seqno, if blocked then 12 else 11)])
  {
    FoundIsBlocked(s.ports, local);
    var i := Find(s.ports, local, true);
    if i < |s.ports| { KnownIsFirst(s, local, mapped, i); }
  }

  /** A report that is refused, or agrees with the table, leaves the table alone; any other
      lists its port. Beside table, counters and notices a report changes nothing. */
  lemma MapInfoResult(s: State, client: nat, nl: NlHeader, local: SockAddr, mapped: SockAddr, env: PortEnv)
    requires Inv(s)
    ensures var r := MapInfo(s, client, nl, local, mapped, env);
      && r.s == s.(ports := r.s.ports, mapinfo := r.s.mapinfo, out := r.s.out, acquired := r.s.acquired)
      && (Blocked(s.ports, local) || !r.ok ==> r.s.ports == s.ports && r.s.acquired == s.acquired)
      && (!Blocked(s.ports, local) && r.ok ==>
            && SameFamily(local, mapped) && Grantable(local, env)
            && r.s.ports == [Reopened(client, local, mapped, env)] + s.ports && r.s.acquired == s.acquired + multiset{local})
  {
    FoundIsBlocked(s.ports, local);
  }

  /** A report is counted for its client if and only if it succeeds. */
  lemma MapInfoCounted(s: State, client: nat, nl: NlHeader, local: SockAddr, mapped: SockAddr, env: PortEnv, c: nat)
    ensures var r := MapInfo(s, client, nl, local, mapped, env);
      C.Counted(r.s, c) == C.Counted(s, c) + if r.ok && c == client then 1 else 0
  {
  }

  lemma KnownIsFirst(s: State, local: SockAddr, mapped: SockAddr, i: nat)
    requires TableOk(s.ports) && i == Find(s.ports, local, true) < |s.ports|
    ensures Same(s.ports[i].local, local) && Same(s.ports[i].mapped, mapped) <==>
      Reported(s.ports, local, mapped)
  {
    assert s.ports[i] in s.ports;
    forall k | 0 <= k < |s.ports| && s.ports[k].local == local && !local.Other? ensures k == i {
      FoundFirst(s.ports, k, local);
    }
  }

  // ---- asking for a remote mapping ----

  /** The port a query uses: the first listed one that matches its local address, or a new one. */
  function Lender(s: State, local: SockAddr, client: nat, env: PortEnv): Option<MappedPort> {
    match FirstHit(s.ports, local, true)
    case Some(p) => Some(p)
    case None =>
      if Grantable(local, env) then Some(Granted(client, local, env)) else None
  }

  lemma LenderIsSlot(s: State, local: SockAddr, client: nat, env: PortEnv)
    requires TableOk(s.ports)
    ensures var slot := SlotFor(s, local, client, env);
      && (slot.NoSlot? <==> Lender(s, local, client, env) == None)
      && (!slot.NoSlot? ==> Lender(s, local, client, env) == Some(SlotPort(s, slot)) && PortOk(SlotPort(s, slot)))
  {
    var i := Find(s.ports, local, true);
    if i < |s.ports| { assert PortOk(s.ports[i]); }
  }

  /** The fields of an address as a message of family `f` carries them: `junk` are the bytes
      found where the other family keeps its IP address. */
  predicate Carried(e: Endpoint, f: Family, a: SockAddr, junk: Endpoint) {
    match a
    case V4(ip, port) => e == Endpoint(if f == Inet then ip else junk.ip, port)
    case V6(ip, port) => e == Endpoint(if f == Inet6 then ip else junk.ip, port)
    case Other(_) => e == junk
  }

  /** A query is posted if and only if it has a port, one for a specific address, the remote
      address is an internet address, and memory is there. No port, or a wildcard one, is
      told with code 11; the other failures say nothing. */
  lemma QueryMappingDecides(s: State, client: nat, nl: NlHeader, local: SockAddr, remote: SockAddr, env: QueryEnv)
    requires Inv(s)
    ensures var r := QueryMapping(s, client, nl, local, remote, env);
      var lender := Lender(s, local, client, env.port);
      var usable := lender.Some? && !IsWildcard(lender.value.local);
      && (C.Posted(s, client, local, remote, env) <==> usable && !remote.Other? && env.buffers)
      && r.s.out == s.out + (if usable then [] else [Failure(client, nl.seqno, 11)])
      && r.ok == (C.Posted(s, client, local, remote, env) && env.send)
  {
    LenderIsSlot(s, local, client, env.port);
  }

  /** A request that goes to port 3935 of the remote host and names the remote, the local and
      the mapped local address. */
  predicate Asks(sm: SendMsg, local: SockAddr, mapped: SockAddr, remote: SockAddr, env: QueryEnv) {
    && sm.dest == WithPort(remote, 3935) && sm.data.mt == MtReq && sm.data.handle == env.handle
    && ToSockAddr(sm.data.family, sm.data.ap) == remote
    && Carried(sm.data.cp, sm.data.family, local, env.junkCp)
    && Carried(sm.data.mappedCp, sm.data.family, mapped, env.junkMapped)
  }

  /** A posted query leaves a new object at the head of the list, good for ten ticks, with
      its request, and queues the request. */
  lemma QueryPosted(s: State, client: nat, nl: NlHeader, local: SockAddr, remote: SockAddr, env: QueryEnv)
    requires Inv(s) && C.Posted(s, client, local, remote, env)
    ensures var s' := QueryMapping(s, client, nl, local, remote, env).s;
      && |s'.reqs| > 0 && s'.reqs[0].msg.Some? && Lender(s, local, client, env.port).Some?
      && var sm, p := s'.reqs[0].msg.value, Lender(s, local, client, env.port).value;
         && s'.reqs == [MapRequest(p.local, remote, nl, env.handle, Some(sm), 10, false, Query, |s.issued|)] + s.reqs
         && s'.pending == (if env.send then [sm] else []) + s.pending && s'.out == s.out
         && s'.mapinfo == s.mapinfo && s'.issued == s.issued + [Issue(p.local, p.mapped, remote, sm.data)]
         && Asks(sm, local, p.mapped, remote, env)
  {
    LenderIsSlot(s, local, client, env.port);
  }

  /** A posted query that hears nothing is tracked through ten ticks and gone from the
      eleventh, and by then its request has been queued nine times more. */
  lemma QueryRetransmitted(s: State, client: nat, nl: NlHeader, local: SockAddr, remote: SockAddr, env: QueryEnv, n: nat)
    requires Inv(s) && Unallocated(s, env.handle) && C.Posted(s, client, local, remote, env)
    ensures var s' := QueryMapping(s, client, nl, local, remote, env).s;
      && |s'.reqs| > 0 && s'.reqs[0].msg.Some? && s'.reqs[0].msg.value.dest == WithPort(remote, 3935)
      && (n <= 10 ==> Ticks(s'.reqs, n) == [s'.reqs[0].(timeout := 10 - n)] + Ticks(s.reqs, n))
      && (n >= 11 ==>
            && Ticks(s'.reqs, n) == Ticks(s.reqs, n)
            && multiset(Resent(s'.reqs, n)) == multiset(Resent(s.reqs, n)) + multiset(Copies(s'.reqs[0].msg.value, 9)))
  {
    QueryPosted(s, client, nl, local, remote, env);
    QueryMappingInv(s, client, nl, local, remote, env);
    var s' := QueryMapping(s, client, nl, local, remote, env).s;
    NewObjectRetransmitted(s.reqs, s'.reqs, n);
  }

  lemma NewObjectRetransmitted(rs: seq<MapRequest>, rs': seq<MapRequest>, n: nat)
    requires ReqsOk(rs') && rs' != [] && rs' == [rs'[0]] + rs && rs'[0].role != Ack && rs'[0].timeout == 10
    ensures rs'[0].msg.Some?
    ensures n <= 10 ==> Ticks(rs', n) == [rs'[0].(timeout := 10 - n)] + Ticks(rs, n)
    ensures n >= 11 ==>
      Ticks(rs', n) == Ticks(rs, n) &&
      multiset(Resent(rs', n)) == multiset(Resent(rs, n)) + multiset(Copies(rs'[0].msg.value, 9))
  {
    assert ReqOk(rs'[0]);
    TicksSplit([rs'[0]], rs, n);
    OneObject(rs'[0], n);
  }

  // ---- a peer asks ----

  lemma {:induction false} TickAllReqs(s: State, ticks: seq<set<nat>>)
    ensures TickAll(s, ticks).reqs == Ticks(s.reqs, |ticks|)
    decreases |ticks|
  {
    if ticks == [] {
    } else {
      TickAllReqs(Tick(s, ticks[0]), ticks[1..]);
    }
  }

  /** Undisturbed timer passes whose copies succeed queue exactly the retransmissions. */
  lemma {:induction false} TimerRetransmits(s: State, ticks: seq<set<nat>>)
    requires forall i | 0 <= i < |ticks| :: ticks[i] == {}
    ensures TickAll(s, ticks) == s.(reqs := Ticks(s.reqs, |ticks|), pending := Resent(s.reqs, |ticks|) + s.pending)
    decreases |ticks|
  {
    if ticks == [] {
      assert [] + s.pending == s.pending;
    } else {
      TimerRetransmits(Tick(s, ticks[0]), ticks[1..]);
      TickSendsPending(s.reqs, 0, 0, s.pending);
    }
  }

  /** What the timer makes of the queue while the tracking objects are `rs`. */
  function Backlog(s: State, rs: seq<MapRequest>, ticks: seq<set<nat>>): seq<SendMsg> {
    TickAll(s.(reqs := rs), ticks).pending
  }

  /** The daemon after timer passes, new objects, new messages and new notices. */
  function After(s: State, added: seq<MapRequest>, rs: seq<MapRequest>, ticks: seq<set<nat>>, sent: seq<SendMsg>,
                 told: seq<Notice>): State
  {
    s.(reqs := added + Ticks(rs, |ticks|), pending := sent + Backlog(s, rs, ticks), out := s.out + told)
  }

  lemma AfterTicks(s: State, rs: seq<MapRequest>, ticks: seq<set<nat>>)
    ensures TickAll(s.(reqs := rs), ticks) == s.(reqs := Ticks(rs, |ticks|), pending := Backlog(s, rs, ticks))
    ensures TickAll(s.(reqs := rs), ticks) == After(s, [], rs, ticks, [], [])
  {
    TickAllFrame(s.(reqs := rs), ticks);
    TickAllReqs(s.(reqs := rs), ticks);
    assert [] + Ticks(rs, |ticks|) == Ticks(rs, |ticks|) && [] + Backlog(s, rs, ticks) == Backlog(s, rs, ticks);
    assert s.out + [] == s.out;
  }

  /** A request for an address that conflicts with nothing listed is rejected: the reject
      goes back to where the request came from, and nothing else happens. */
  lemma UnknownRejected(s: State, m: WireMsg, from: SockAddr, env: WireEnv)
    requires Inv(s) && !Blocked(s.ports, ToSockAddr(m.family, m.ap))
    ensures var rej := SendMsg(from, WireMsg(MtRej, m.family, m.ap, m.cp, NOWHERE, m.handle));
      WireRequest(s, m, from, env) ==
      Outcome(s.(pending := (if env.send then [rej] else []) + s.pending), env.send)
  {
    var a := ToSockAddr(m.family, m.ap);
    MissMeansNoConflict(s.ports, a);
    forall i | 0 <= i < |s.ports| ensures !Conflict(a, s.ports[i].local) { assert s.ports[i] in s.ports; }
    assert [] + s.pending == s.pending;
  }

  /** Where port `p` is reached by a peer that asked for `m.ap`: a wildcard port at the IP
      address asked for, any other at its own mapping. */
  predicate ReachedAt(ap: Endpoint, p: MappedPort, m: WireMsg, junk: Endpoint) {
    if IsWildcard(p.local) then ap == Endpoint(m.ap.ip, PortOf(p.mapped)) else Carried(ap, m.family, p.mapped, junk)
  }

  /** The object and the accept that a new request for port `p` brings about. */
  predicate Admitted(o: MapRequest, p: MappedPort, m: WireMsg, from: SockAddr, env: WireEnv) {
    && o.msg.Some? && ReachedAt(o.msg.value.data.ap, p, m, env.junk)
    && var ap := o.msg.value.data.ap;
       && o.msg.value == SendMsg(from, WireMsg(MtAcc, m.family, ap, m.cp, NOWHERE, m.handle))
       && o == MapRequest(ToSockAddr(m.family, ap), ToSockAddr(m.family, m.cp), NO_HEADER,
                          if m.handle == 0 then env.address else m.handle, o.msg, 10, false, Accept, 0)
  }

  /** A request for port `p` that is not being tracked leaves a new object at the head of the
      list, good for ten ticks, queues the accept, and tells the owner of the port. Each step
      is taken only if those before it succeed. */
  lemma RequestAdmitted(s: State, m: WireMsg, from: SockAddr, env: WireEnv, p: MappedPort)
    requires Inv(s) && FirstHit(s.ports, ToSockAddr(m.family, m.ap), true) == Some(p)
    requires env.buffers && !C.Tracked(s, m, env.junk)
    ensures var r := WireRequest(s, m, from, env);
      && |r.s.reqs| > 0 && Admitted(r.s.reqs[0], p, m, from, env) && r.ok == (env.send && env.netlink)
      && var o := r.s.reqs[0];
         var told := RemoteInfo(p.owner, p.local, ToSockAddr(m.family, m.cp), p.mapped, ToSockAddr(m.family, m.mappedCp));
         r.s == After(s, [o], s.reqs, env.ticks, if env.send then [o.msg.value] else [], if r.ok then [told] else [])
  {
    var i := Find(s.ports, ToSockAddr(m.family, m.ap), true);
    assert PortOk(s.ports[i]) && s.(reqs := s.reqs) == s;
    AfterTicks(s, s.reqs, env.ticks);
    assert [] + Backlog(s, s.reqs, env.ticks) == Backlog(s, s.reqs, env.ticks);
  }

  lemma RequestWithoutMemory(s: State, m: WireMsg, from: SockAddr, env: WireEnv, p: MappedPort)
    requires FirstHit(s.ports, ToSockAddr(m.family, m.ap), true) == Some(p)
    requires !env.buffers && !C.Tracked(s, m, env.junk)
    ensures WireRequest(s, m, from, env) == Outcome(After(s, [], s.reqs, env.ticks, [], []), false)
  {
    assert s.(reqs := s.reqs) == s;
    AfterTicks(s, s.reqs, env.ticks);
  }

  /** A request is being tracked if and only if a live ACCEPT object has its handle and the
      address it would be accepted at; then it changes nothing. */
  lemma TrackedIgnored(s: State, m: WireMsg, from: SockAddr, env: WireEnv, p: MappedPort, ap: Endpoint)
    requires Inv(s) && FirstHit(s.ports, ToSockAddr(m.family, m.ap), true) == Some(p) && ReachedAt(ap, p, m, env.junk)
    ensures C.Tracked(s, m, env.junk) <==>
      exists o :: o in s.reqs && o.role == Accept && o.handle == m.handle && o.src == ToSockAddr(m.family, ap)
    ensures C.Tracked(s, m, env.junk) ==> WireRequest(s, m, from, env) == Outcome(s, true)
  {
    var i := Find(s.ports, ToSockAddr(m.family, m.ap), true);
    assert PortOk(s.ports[i]) && C.AcceptPoint(s, m, env.junk) == ap;
    var k := FindReq(s.reqs, m.handle, ToSockAddr(m.family, ap), {Accept});
    if k < |s.reqs| {
      assert s.reqs[k] in s.reqs;
    } else {
      forall o | o in s.reqs ensures !(o.role == Accept && o.handle == m.handle && o.src == ToSockAddr(m.family, ap)) {
        assert !Wanted(o, m.handle, ToSockAddr(m.family, ap), {Accept});
      }
    }
  }

  /** An accepted request that is not acknowledged is tracked and retransmitted like a query. */
  lemma AcceptRetransmitted(s: State, m: WireMsg, from: SockAddr, env: WireEnv, p: MappedPort, n: nat)
    requires Inv(s) && FirstHit(s.ports, ToSockAddr(m.family, m.ap), true) == Some(p)
    requires env.buffers && !C.Tracked(s, m, env.junk) && !Collides(s, m, env)
    ensures var s' := WireRequest(s, m, from, env).s;
      && |s'.reqs| > 0 && Admitted(s'.reqs[0], p, m, from, env)
      && (n <= 10 ==> Ticks(s'.reqs, n) == [s'.reqs[0].(timeout := 10 - n)] + Ticks(s'.reqs[1..], n))
      && (n >= 11 ==>
            && Ticks(s'.reqs, n) == Ticks(s'.reqs[1..], n)
            && multiset(Resent(s'.reqs, n)) == multiset(Resent(s'.reqs[1..], n)) + multiset(Copies(s'.reqs[0].msg.value, 9)))
  {
    RequestAdmitted(s, m, from, env, p);
    WireRequestInv(s, m, from, env);
    var s' := WireRequest(s, m, from, env).s;
    NewObjectRetransmitted(s'.reqs[1..], s'.reqs, n);
  }

  // ---- a peer answers ----

  /** Position `k` holds the open query with the handle of `m`, asked from the address that
      `m` names, and position `i` the port for that address. */
  predicate Awaited(s: State, m: WireMsg, i: nat, k: nat) {
    && i < |s.ports| && s.ports[i].local == ToSockAddr(m.family, m.cp)
    && k < |s.reqs| && s.reqs[k].role == Query && !s.reqs[k].complete
    && s.reqs[k].handle == m.handle && s.reqs[k].src == s.ports[i].local
  }

  lemma AwaitedFound(s: State, m: WireMsg, i: nat, k: nat)
    requires Inv(s) && Awaited(s, m, i, k)
    ensures FindSame(s.ports, ToSockAddr(m.family, m.cp), true) == i
    ensures FindReq(s.reqs, m.handle, s.ports[i].local, {Query, Ack}) == k
    ensures FindReq(s.reqs, m.handle, s.ports[i].local, {Query}) == k
  {
    FoundAt(s.ports, i, s.ports[i].local);
    assert Wanted(s.reqs[k], m.handle, s.ports[i].local, {Query, Ack});
    forall j | 0 <= j < k ensures !Wanted(s.reqs[j], m.handle, s.ports[i].local, {Query, Ack}) {
      assert !Clash(s.reqs[j], s.reqs[k]);
    }
  }

  /** The object at `k` answered: complete, and gone with the next tick. */
  function Answered(rs: seq<MapRequest>, k: nat): seq<MapRequest>
    requires k < |rs|
  {
    rs[k := rs[k].(complete := true, timeout := 0)]
  }

  /** The awaited accept: its query is complete from now on; the client is told both mappings;
      an ACK object that is good for ten ticks takes over; and the accept is acknowledged to
      its sender. Each step is taken only if those before it succeed. */
  lemma AcceptAnswers(s: State, m: WireMsg, from: SockAddr, env: WireEnv, i: nat, k: nat)
    requires Inv(s) && m.mt == MtAcc && Awaited(s, m, i, k)
    ensures var o, p, goesOn := s.reqs[k], s.ports[i], env.netlink && env.buffers;
      var told := Answer(o.id, o.nl, p.owner, p.local, o.remote, p.mapped, ToSockAddr(m.family, m.ap), 0);
      var taken := MapRequest(o.src, o.remote, NO_HEADER, o.handle, None, 10, false, Ack, o.id);
      var ack := SendMsg(from, WireMsg(MtAck, m.family, m.ap, m.cp, NOWHERE, m.handle));
      WireAccept(s, m, from, env) ==
      Outcome(After(s, if goesOn then [taken] else [], Answered(s.reqs, k), env.ticks,
                    if goesOn && env.send then [ack] else [], if env.netlink then [told] else []),
              goesOn && env.send)
  {
    AwaitedFound(s, m, i, k);
    assert ReqOk(s.reqs[k]);
    AfterTicks(s, Answered(s.reqs, k), env.ticks);
    assert [] + Backlog(s, Answered(s.reqs, k), env.ticks) == Backlog(s, Answered(s.reqs, k), env.ticks);
  }

  /** The awaited reject: the client is told the remote address itself, with code 16. */
  lemma RejectAnswers(s: State, m: WireMsg, env: WireEnv, i: nat, k: nat)
    requires Inv(s) && m.mt == MtRej && Awaited(s, m, i, k)
    ensures var o, p := s.reqs[k], s.ports[i];
      var told := Answer(o.id, o.nl, p.owner, p.local, o.remote, p.mapped, o.remote, 16);
      WireReject(s, m, env) ==
      Outcome(After(s, [], Answered(s.reqs, k), env.ticks, [], if env.netlink then [told] else []), env.netlink)
  {
    AwaitedFound(s, m, i, k);
    AfterTicks(s, Answered(s.reqs, k), env.ticks);
  }

  /** The first object with the handle of `m` and the address that `m` names, if that address
      is listed: what an accept or a reject is about. */
  predicate About(s: State, m: WireMsg, k: nat, roles: set<Role>) {
    && k < |s.reqs| && Topic(s.reqs[k], m, roles)
    && (forall j | 0 <= j < k :: !Topic(s.reqs[j], m, roles))
    && exists p :: p in s.ports && p.local == ToSockAddr(m.family, m.cp)
  }

  predicate Topic(o: MapRequest, m: WireMsg, roles: set<Role>) {
    o.role in roles && o.handle == m.handle && o.src == ToSockAddr(m.family, m.cp)
  }

  lemma AboutFound(s: State, m: WireMsg, k: nat, roles: set<Role>)
    requires About(s, m, k, roles)
    ensures var i := FindSame(s.ports, ToSockAddr(m.family, m.cp), true);
      i < |s.ports| && FindReq(s.reqs, m.handle, s.ports[i].local, roles) == k
  {
    var i := FindSame(s.ports, ToSockAddr(m.family, m.cp), true);
    var p :| p in s.ports && p.local == ToSockAddr(m.family, m.cp);
    assert Wanted(s.reqs[k], m.handle, s.ports[i].local, roles);
    forall j | 0 <= j < k ensures !Wanted(s.reqs[j], m.handle, s.ports[i].local, roles) {
      assert !Topic(s.reqs[j], m, roles);
    }
  }

  lemma NotAbout(s: State, m: WireMsg, roles: set<Role>)
    requires forall k | 0 <= k < |s.reqs| :: !About(s, m, k, roles)
    ensures var i := FindSame(s.ports, ToSockAddr(m.family, m.cp), true);
      i < |s.ports| ==> FindReq(s.reqs, m.handle, s.ports[i].local, roles) == |s.reqs|
  {
    var i := FindSame(s.ports, ToSockAddr(m.family, m.cp), true);
    if i < |s.ports| {
      assert s.ports[i] in s.ports;
      var k := FindReq(s.reqs, m.handle, s.ports[i].local, roles);
      assert k < |s.reqs| <==> About(s, m, k, roles);
    }
  }

  /** A repeated accept meets the ACK object: nobody is told anything, the object is good for
      ten more ticks, and the accept is acknowledged again. */
  lemma AcceptReacknowledged(s: State, m: WireMsg, from: SockAddr, env: WireEnv, k: nat)
    requires m.mt == MtAcc && About(s, m, k, {Query, Ack}) && s.reqs[k].role == Ack && !s.reqs[k].complete
    ensures var ack := SendMsg(from, WireMsg(MtAck, m.family, m.ap, m.cp, NOWHERE, m.handle));
      WireAccept(s, m, from, env) ==
      Outcome(After(s, [], s.reqs[k := s.reqs[k].(timeout := 10)], env.ticks, if env.send then [ack] else [], []), env.send)
  {
    AboutFound(s, m, k, {Query, Ack});
    AfterTicks(s, s.reqs[k := s.reqs[k].(timeout := 10)], env.ticks);
  }

  /** An accept or a reject that is about nothing, or about a query that is complete, changes
      nothing. */
  lemma LateAnswerIgnored(s: State, m: WireMsg, from: SockAddr, env: WireEnv)
    requires m.mt == MtAcc || m.mt == MtRej
    requires var roles := if m.mt == MtAcc then {Query, Ack} else {Query};
      forall k | 0 <= k < |s.reqs| && About(s, m, k, roles) :: s.reqs[k].complete
    ensures Dispatch(s, m, from, env) == Outcome(s, true)
  {
    var roles := if m.mt == MtAcc then {Query, Ack} else {Query};
    if k :| 0 <= k < |s.reqs| && About(s, m, k, roles) {
      AboutFound(s, m, k, roles);
    } else {
      NotAbout(s, m, roles);
    }
  }

  /** With no obstacle an accept is acknowledged without telling anybody if and only if what
      it is about is an ACK object. */
  lemma ReacknowledgedIff(s: State, m: WireMsg, from: SockAddr, env: WireEnv)
    requires Inv(s) && m.mt == MtAcc && env.netlink && env.buffers && env.send && env.ticks == []
    ensures var r := WireAccept(s, m, from, env);
      var ack := SendMsg(from, WireMsg(MtAck, m.family, m.ap, m.cp, NOWHERE, m.handle));
      r.s.out == s.out && r.s.pending == [ack] + s.pending <==>
      exists k | 0 <= k < |s.reqs| :: About(s, m, k, {Query, Ack}) && s.reqs[k].role == Ack
  {
    if k :| 0 <= k < |s.reqs| && About(s, m, k, {Query, Ack}) {
      assert ReqOk(s.reqs[k]);
      if s.reqs[k].role == Ack {
        AcceptReacknowledged(s, m, from, env, k);
      } else {
        OtherwiseNot(s, m, from, env, k);
      }
    } else {
      LateAnswerIgnored(s, m, from, env);
    }
  }

  lemma OtherwiseNot(s: State, m: WireMsg, from: SockAddr, env: WireEnv, k: nat)
    requires Inv(s) && m.mt == MtAcc && env.netlink && About(s, m, k, {Query, Ack}) && s.reqs[k].role == Query
    ensures WireAccept(s, m, from, env).s.out != s.out || WireAccept(s, m, from, env).s == s
    ensures forall j | 0 <= j < |s.reqs| && About(s, m, j, {Query, Ack}) :: s.reqs[j].role != Ack
  {
    forall j | 0 <= j < |s.reqs| && About(s, m, j, {Query, Ack}) ensures j == k {
      AboutFound(s, m, j, {Query, Ack});
      AboutFound(s, m, k, {Query, Ack});
    }
    if s.reqs[k].complete {
      LateAnswerIgnored(s, m, from, env);
    } else {
      var i :| 0 <= i < |s.ports| && s.ports[i].local == ToSockAddr(m.family, m.cp);
      AcceptAnswers(s, m, from, env, i, k);
    }
  }

  // ---- a peer acknowledges ----

  /** `a` is where some listed port is mapped to, in the sense of the lookup: its number is
      that of the mapping, and it is the mapping, or a wildcard is involved. */
  ghost predicate MappedSomewhere(t: Table, a: SockAddr) {
    exists p :: p in t && PortOf(p.mapped) == PortOf(a) && (p.mapped == a || IsWildcard(p.local) || IsWildcard(a))
  }

  /** An acknowledgement completes the first ACCEPT object with its handle and address, if a
      port is mapped there, and changes nothing otherwise. */
  lemma AckDecides(s: State, m: WireMsg)
    requires Inv(s)
    ensures var a := ToSockAddr(m.family, m.ap);
      var k := FindReq(s.reqs, m.handle, a, {Accept});
      WireAck(s, m) == if MappedSomewhere(s.ports, a) && k < |s.reqs| && !s.reqs[k].complete
        then s.(reqs := s.reqs[k := s.reqs[k].(complete := true, timeout := 0)]) else s
  {
    var a := ToSockAddr(m.family, m.ap);
    var i := Find(s.ports, a, false);
    var k := FindReq(s.reqs, m.handle, a, {Accept});
    if k < |s.reqs| && s.reqs[k].complete { assert s.reqs[k := s.reqs[k]] == s.reqs; }
    if i < |s.ports| {
      assert PortOk(s.ports[i]) && s.ports[i] in s.ports;
    } else {
      forall j | 0 <= j < |s.ports|
        ensures !(PortOf(s.ports[j].mapped) == PortOf(a) && (s.ports[j].mapped == a || s.ports[j].wcard || IsWildcard(a)))
      {
        assert !Hit(s.ports[j], a, false);
      }
      assert forall p | p in s.ports :: PortOk(p);
    }
  }

  // ---- a whole conversation that ends in a reject ----

  /** A query for a specific address at which the peer lists nothing ends with exactly one
      answer: the remote address itself, with code 16. */
  lemma RejectedHandshake(a: State, b: State, client: nat, nl: NlHeader, local: SockAddr, remote: SockAddr, q: QueryEnv,
                          atA: SockAddr, envA: WireEnv, envB: WireEnv)
    returns (a1: State, b1: State, a2: State)
    requires Inv(a) && Inv(b) && Unallocated(a, q.handle) && q.send
    requires C.Posted(a, client, local, remote, q) && SameFamily(local, remote) && !IsWildcard(local)
    requires !Blocked(b.ports, remote) && envA.netlink && envB.send
    ensures a1 == QueryMapping(a, client, nl, local, remote, q).s && |a1.pending| > 0
    ensures b1 == WireRequest(b, a1.pending[0].data, atA, envB).s && |b1.pending| > 0 && b1.out == b.out
    ensures b1.pending[0].dest == atA && a2 == WireReject(a1, b1.pending[0].data, envA).s
    ensures |a2.out| == |a.out| + 1 && a2.out[..|a.out|] == a.out && Answers(a2.out, |a.issued|) == 1
    ensures var n := a2.out[|a.out|];
      n.Answer? && n == Answer(|a.issued|, nl, n.owner, local, remote, n.mappedLocal, remote, 16)
  {
    a1 := QueryMapping(a, client, nl, local, remote, q).s;
    C.QueryLeg(a, client, nl, local, remote, q);
    QueryMappingInv(a, client, nl, local, remote, q);
    var req := a1.pending[0].data;
    b1 := WireRequest(b, req, atA, envB).s;
    UnknownRejected(b, req, atA, envB);
    var rej := b1.pending[0].data;
    a2 := WireReject(a1, rej, envA).s;
    RejectAnswers(a1, rej, envA, FindSame(a1.ports, local, true), 0);
    FirstAnswer(a, a2.out[|a.out|]);
  }

  lemma FirstAnswer(s: State, n: Notice)
    requires Inv(s) && n.Answer? && n.id == |s.issued|
    ensures Answers(s.out + [n], n.id) == 1
  {
    C.AnswersSnoc(s.out, n, n.id);
  }
}
