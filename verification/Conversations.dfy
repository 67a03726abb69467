/** What one daemon guarantees to its clients and peers: references are conserved,
    failures leave no trace, queries are answered exactly when they can be, accepting
    is idempotent, acknowledgements find their conversation, and a restart is undone
    by replaying the clients' mappings. */
module Conversations {
  import opened Addresses
  import opened Options
  import opened PortTable
  import opened Requests
  import opened Daemon

  // ---- references ----

  /** An internet address is listed exactly while more references were taken than given
      back, and its entry's count is that difference. */
  lemma ListedIffReferenced(s: State, a: SockAddr)
    requires Inv(s) && !a.Other?
    ensures var i := FindSame(s.ports, a, true);
      s.acquired[a] == s.released[a] + if i < |s.ports| then s.ports[i].refs else 0
    ensures FindSame(s.ports, a, true) < |s.ports| <==> s.acquired[a] > s.released[a]
  {
    RefsAtIsEntry(s.ports, a);
    var i := FindSame(s.ports, a, true);
    if i < |s.ports| { assert PortOk(s.ports[i]); }
  }

  /** The table and its history are as they were. */
  predicate Untouched(s: State, s': State) {
    && s'.ports == s.ports && s'.acquired == s.acquired && s'.released == s.released
    && s'.reqs == s.reqs && s'.pending == s.pending && s'.issued == s.issued && s'.mapinfo == s.mapinfo
  }

  /** A failing add leaves no trace; a successful one takes exactly one reference on the
      requested address and reports that address's mapping. */
  lemma AddMappingEffect(s: State, client: nat, nl: NlHeader, local: SockAddr, env: PortEnv, reply: bool)
    requires Inv(s)
    ensures var r := AddMapping(s, client, nl, local, env, reply);
      && (!r.ok ==> Untouched(s, r.s))
      && (r.ok ==>
            && r.s.acquired == s.acquired + multiset{local} && r.s.released == s.released
            && (exists p :: p in r.s.ports && p.local == local && r.s.out == s.out + [MappingReply(nl, local, p.mapped)])
            && forall q | q in s.ports && q.local != local :: q in r.s.ports)
  {
    var slot := SlotFor(s, local, client, env);
    var r := AddMapping(s, client, nl, local, env, reply);
    if r.ok {
      var p := if slot.Listed? then r.s.ports[slot.i] else r.s.ports[0];
      assert p in r.s.ports && p.local == local && p.mapped == SlotPort(s, slot).mapped;
      forall q | q in s.ports && q.local != local ensures q in r.s.ports {
        var k :| 0 <= k < |s.ports| && s.ports[k] == q;
        assert r.s.ports[if slot.Listed? then k else k + 1] == q;
      }
    }
  }

  /** A query gets as far as posting its request unless its port cannot be had, is a
      wildcard, the remote family is unknown, or memory is short. */
  predicate Posted(s: State, client: nat, local: SockAddr, remote: SockAddr, env: QueryEnv) {
    var slot := SlotFor(s, local, client, env.port);
    !slot.NoSlot? && !SlotPort(s, slot).wcard && !remote.Other? && env.buffers
  }

  /** "A failing query restores the table" does not hold as it stands: when only the
      last step, queueing the first copy, fails, the query reports failure but keeps its
      reference and its tracking object. It is undone if and only if it was not posted. */
  lemma QueryMappingEffect(s: State, client: nat, nl: NlHeader, local: SockAddr, remote: SockAddr, env: QueryEnv)
    requires Inv(s)
    ensures var r := QueryMapping(s, client, nl, local, remote, env);
      && (Untouched(s, r.s) <==> !Posted(s, client, local, remote, env))
      && (r.ok <==> Posted(s, client, local, remote, env) && env.send)
      && (Posted(s, client, local, remote, env) ==>
            && r.s.released == s.released
            && r.s.acquired == s.acquired + multiset{SlotPort(s, SlotFor(s, local, client, env.port)).local}
            && |r.s.issued| == |s.issued| + 1 && r.s.reqs[0].id == |s.issued|
            && |r.s.reqs| == |s.reqs| + 1 && r.s.reqs[1..] == s.reqs
            && r.s.reqs[0].role == Query && !r.s.reqs[0].complete && r.s.reqs[0].handle == env.handle)
  {
    var r := QueryMapping(s, client, nl, local, remote, env);
    if Posted(s, client, local, remote, env) {
      assert |r.s.issued| == |s.issued| + 1;
    }
  }

  /** The failure that is not undone. */
  lemma QueryKeepsMappingOnSendFailure(local: SockAddr, remote: SockAddr)
    requires !local.Other? && !IsWildcard(local) && !remote.Other?
    ensures
      var env := QueryEnv(PortEnv(true, BindFailed, true), true, 1, NOWHERE, NOWHERE, false);
      var r := QueryMapping(START, 0, NO_HEADER, local, remote, env);
      !r.ok && r.s.ports == [NewPort(0, local, local)]
  {
  }

  /** Removal: the owner's exact address loses one reference, everything else stays. */
  lemma RemoveMappingEffect(s: State, client: nat, local: SockAddr)
    requires Inv(s)
    ensures var i := FindSame(s.ports, local, true);
      var s' := RemoveMapping(s, client, local);
      if i < |s.ports| && s.ports[i].owner == client then
        && s'.released == s.released + multiset{local} && s'.acquired == s.acquired
        && (FindSame(s'.ports, local, true) == |s'.ports| <==> s.ports[i].refs == 1)
        && s' == s.(ports := s'.ports, released := s'.released)
        && forall q | q in s.ports && q.local != local :: q in s'.ports
      else s' == s
  {
    var i := FindSame(s.ports, local, true);
    if i < |s.ports| && s.ports[i].owner == client {
      var s' := RemoveMapping(s, client, local);
      assert PortOk(s.ports[i]);
      RemoveMappingInv(s, client, local);
      RefsAtDrop(s.ports, i, local);
      RefsAtIsEntry(s.ports, local);
      RefsAtIsEntry(s'.ports, local);
      var j := FindSame(s'.ports, local, true);
      if j < |s'.ports| { assert PortOk(s'.ports[j]); }
      forall q | q in s.ports && q.local != local ensures q in s'.ports {
        var k :| 0 <= k < |s.ports| && s.ports[k] == q;
        if s.ports[i].refs == 1 {
          assert s'.ports[if k < i then k else k - 1] == q;
        } else {
          assert s'.ports[k] == q;
        }
      }
    }
  }

  // ---- which queries can be answered ----

  /** The accept a peer builds from this query's request leads back to the query. */
  predicate Answerable(q: Issue) {
    ToSockAddr(q.msg.family, q.msg.cp) == q.local
  }

  /** The tracking object an accept or reject is matched with, or the list length. */
  function Found(s: State, m: WireMsg): (k: nat)
    ensures k <= |s.reqs|
    ensures k < |s.reqs| ==> s.reqs[k].handle == m.handle && s.reqs[k].src == ToSockAddr(m.family, m.cp)
  {
    var i := FindSame(s.ports, ToSockAddr(m.family, m.cp), true);
    if i == |s.ports| then |s.reqs|
    else FindReq(s.reqs, m.handle, s.ports[i].local, if m.mt == MtAcc then {Query, Ack} else {Query})
  }

  /** What the client of the matched query is told. */
  function AnswerFor(s: State, m: WireMsg): Notice
    requires Found(s, m) < |s.reqs|
  {
    var p := s.ports[FindSame(s.ports, ToSockAddr(m.family, m.cp), true)];
    var o := s.reqs[Found(s, m)];
    if m.mt == MtAcc then
      Answer(o.id, o.nl, p.owner, p.local, o.remote, p.mapped, ToSockAddr(m.family, m.ap), 0)
    else
      Answer(o.id, o.nl, p.owner, p.local, o.remote, p.mapped, o.remote, REMOTE_QUERY_REJECT)
  }

  /** The matched object may still produce an answer. */
  predicate Open(s: State, m: WireMsg) {
    var k := Found(s, m);
    k < |s.reqs| && s.reqs[k].role == Query && !s.reqs[k].complete
  }

  lemma AnswersSnoc(out: seq<Notice>, n: Notice, id: nat)
    ensures Answers(out + [n], id) == Answers(out, id) + if n.Answer? && n.id == id then 1 else 0
  {
    assert (out + [n])[..|out|] == out;
  }

  /** Either nobody is told anything, or the client of the matched open query is. */
  lemma DispatchOut(s: State, m: WireMsg, from: SockAddr, env: WireEnv)
    requires m.mt == MtAcc || m.mt == MtRej
    ensures Dispatch(s, m, from, env).s.out
         == s.out + if Open(s, m) && env.netlink then [AnswerFor(s, m)] else []
  {
    var k := Found(s, m);
    if k < |s.reqs| { TickAllFrame(Settle(s, k), env.ticks); }
  }

  lemma DispatchAnswers(s: State, m: WireMsg, from: SockAddr, env: WireEnv, id: nat)
    requires (m.mt == MtAcc || m.mt == MtRej) && env.netlink
    ensures Answers(Dispatch(s, m, from, env).s.out, id)
         == Answers(s.out, id) + if Open(s, m) && s.reqs[Found(s, m)].id == id then 1 else 0
  {
    DispatchOut(s, m, from, env);
    if Open(s, m) {
      AnswersSnoc(s.out, AnswerFor(s, m), id);
    } else {
      assert s.out + [] == s.out;
    }
  }

  /** `m` answers the request of query `q`. */
  predicate Replies(m: WireMsg, q: Issue) {
    m.handle == q.msg.handle && m.family == q.msg.family && m.cp == q.msg.cp
  }

  /** While the query is open and its port listed, an accept or a reject of its request
      yields an answer if and only if the query is answerable. */
  lemma AnsweredIffAnswerable(s: State, k: nat, m: WireMsg, from: SockAddr, env: WireEnv)
    requires Inv(s) && k < |s.reqs| && s.reqs[k].role == Query && !s.reqs[k].complete
    requires QueryOk(s.reqs[k], s.issued) && Replies(m, s.issued[s.reqs[k].id]) && (m.mt == MtAcc || m.mt == MtRej)
    requires FindSame(s.ports, s.reqs[k].src, true) < |s.ports|
    requires env.netlink
    ensures var id := s.reqs[k].id;
      Answers(Dispatch(s, m, from, env).s.out, id)
        == Answers(s.out, id) + if Answerable(s.issued[id]) then 1 else 0
  {
    DispatchAnswers(s, m, from, env, s.reqs[k].id);
    FoundIffAnswerable(s, k, m);
  }

  /** The open query is the one that the reply is matched with. */
  lemma FoundIffAnswerable(s: State, k: nat, m: WireMsg)
    requires Inv(s) && k < |s.reqs| && s.reqs[k].role == Query && !s.reqs[k].complete
    requires QueryOk(s.reqs[k], s.issued) && Replies(m, s.issued[s.reqs[k].id]) && (m.mt == MtAcc || m.mt == MtRej)
    requires FindSame(s.ports, s.reqs[k].src, true) < |s.ports|
    ensures Open(s, m) <==> Answerable(s.issued[s.reqs[k].id])
    ensures Open(s, m) ==> Found(s, m) == k
  {
    forall i | 0 <= i < |s.reqs| && i != k
      ensures s.reqs[i].role == Query || (s.reqs[i].role == Ack && i < k) ==> s.reqs[i].handle != m.handle
    {
      assert !Clash(s.reqs[if i < k then i else k], s.reqs[if i < k then k else i]);
    }
    if Answerable(s.issued[s.reqs[k].id]) {
      assert Wanted(s.reqs[k], m.handle, s.reqs[k].src, if m.mt == MtAcc then {Query, Ack} else {Query});
    }
  }

  /** Exactly which posted queries can be answered. Within one family: those from a
      specific address. (A wildcard address borrows a specific port, but the request then
      names the wildcard.) Across families: only a wildcard that borrows a port of the
      remote's family whose IP address happens to be the bytes that were read. */
  lemma AnswerableIff(s: State, client: nat, nl: NlHeader, local: SockAddr, remote: SockAddr, env: QueryEnv)
    requires Inv(s) && Posted(s, client, local, remote, env)
    ensures var p := SlotPort(s, SlotFor(s, local, client, env.port));
      var issued := QueryMapping(s, client, nl, local, remote, env).s.issued;
      && |issued| == |s.issued| + 1
      && (Answerable(issued[|s.issued|]) <==>
            if SameFamily(local, remote) then !IsWildcard(local)
            else IsWildcard(local) && SameFamily(p.local, remote) && p.local.ip == env.junkCp.ip)
  {
    var slot := SlotFor(s, local, client, env.port);
    if slot.Listed? { assert PortOk(s.ports[slot.i]); }
  }

  /** For every specific address: once it is mapped, a query from the wildcard address
      with its number is posted and cannot be answered. */
  lemma WildcardQueryUnanswered(ip: nat, port: nat, remoteIp: nat, remotePort: nat)
    requires ip != 0
    ensures
      var env := QueryEnv(PortEnv(true, BindFailed, true), true, 1, NOWHERE, NOWHERE, true);
      var s := AddMapping(START, 0, NO_HEADER, V4(ip, port), env.port, true).s;
      var local, remote := V4(0, port), V4(remoteIp, remotePort);
      var issued := QueryMapping(s, 0, NO_HEADER, local, remote, env).s.issued;
      && s.ports == [NewPort(0, V4(ip, port), V4(ip, port))]
      && Posted(s, 0, local, remote, env) && |issued| == 1 && !Answerable(issued[0])
  {
    var env := QueryEnv(PortEnv(true, BindFailed, true), true, 1, NOWHERE, NOWHERE, true);
    var s := AddMapping(START, 0, NO_HEADER, V4(ip, port), env.port, true).s;
    AddMappingInv(START, 0, NO_HEADER, V4(ip, port), env.port, true);
    assert s.ports == [NewPort(0, V4(ip, port), V4(ip, port))];
    assert Hit(s.ports[0], V4(0, port), true);
    AnswerableIff(s, 0, NO_HEADER, V4(0, port), V4(remoteIp, remotePort), env);
  }

  // ---- the accepting side ----

  /** The endpoint a request would be accepted at. */
  function AcceptPoint(s: State, m: WireMsg, junk: Endpoint): Endpoint
    requires Find(s.ports, ToSockAddr(m.family, m.ap), true) < |s.ports|
  {
    AcceptedAt(s.ports[Find(s.ports, ToSockAddr(m.family, m.ap), true)], m.family, m.ap, junk)
  }

  /** A request is being tracked: its ACCEPT object is live. */
  predicate Tracked(s: State, m: WireMsg, junk: Endpoint) {
    && Find(s.ports, ToSockAddr(m.family, m.ap), true) < |s.ports|
    && FindReq(s.reqs, m.handle, ToSockAddr(m.family, AcceptPoint(s, m, junk)), {Accept}) < |s.reqs|
  }

  /** The ACCEPT object of a newly accepted request heads the list with a full timeout. */
  lemma RequestAccepted(s: State, m: WireMsg, from: SockAddr, env: WireEnv)
    requires env.buffers && Find(s.ports, ToSockAddr(m.family, m.ap), true) < |s.ports| && !Tracked(s, m, env.junk)
    ensures var s' := WireRequest(s, m, from, env).s;
      && s'.ports == s.ports && s'.issued == s.issued && |s'.reqs| > 0
      && s'.reqs[0] == AcceptFor(m, AcceptPoint(s, m, env.junk), from, env.address)
      && (env.send && env.netlink ==> |s'.out| == |s.out| + 1)
  {
    TickAllFrame(s, env.ticks);
  }

  /** A request without a handle is never recognised: each copy of it is accepted anew
      and told to the client again. */
  lemma UnnamedRequestRepeats(s: State, m: WireMsg, from: SockAddr, env: WireEnv)
    requires Inv(s) && m.handle == 0 && env.buffers && env.send && env.netlink
    requires Find(s.ports, ToSockAddr(m.family, m.ap), true) < |s.ports|
    ensures var s' := WireRequest(s, m, from, env).s;
      !Tracked(s, m, env.junk) && |s'.out| == |s.out| + 1 && |s'.reqs| > 0 && s'.reqs[0].timeout == MAP_REQ_TIMEOUT
  {
    NoZeroHandle(s.reqs, m, ToSockAddr(m.family, AcceptPoint(s, m, env.junk)));
    RequestAccepted(s, m, from, env);
  }

  /** Two peers can bring a collision about: one asks under some handle, and the object for
      a request without a handle is then allocated at that very address. */
  lemma CollisionHappens(ip: nat, port: nat, cp: Endpoint, handle: Address, from: SockAddr)
    requires ip != 0
    ensures
      var env := WireEnv([], true, handle, true, true, NOWHERE);
      var m := WireMsg(MtReq, Inet, Endpoint(ip, port), cp, NOWHERE, handle);
      var s := AddMapping(START, 0, NO_HEADER, V4(ip, port), PortEnv(true, BindFailed, true), true).s;
      var s' := WireRequest(s, m, from, env).s;
      Inv(s') && Collides(s', m.(handle := 0), env)
  {
    var env := WireEnv([], true, handle, true, true, NOWHERE);
    var m := WireMsg(MtReq, Inet, Endpoint(ip, port), cp, NOWHERE, handle);
    var s := AddMapping(START, 0, NO_HEADER, V4(ip, port), PortEnv(true, BindFailed, true), true).s;
    StartInv();
    AddMappingInv(START, 0, NO_HEADER, V4(ip, port), PortEnv(true, BindFailed, true), true);
    assert s.ports == [NewPort(0, V4(ip, port), V4(ip, port))] && s.reqs == [];
    assert Hit(s.ports[0], V4(ip, port), true);
    RequestAccepted(s, m, from, env);
    WireRequestInv(s, m, from, env);
    var s' := WireRequest(s, m, from, env).s;
    assert Wanted(s'.reqs[0], handle, V4(ip, port), {Accept});
  }

  /** `p` is the port behind the accept `a`, read without crossing families. */
  predicate Serves(p: MappedPort, a: WireMsg) {
    if p.wcard then a.ap.port == PortOf(p.mapped) else ToSockAddr(a.family, a.ap) == p.mapped
  }

  /** While the port is listed, the acknowledgement a peer builds from our accept
      completes exactly the conversation that sent it, provided the request had a handle;
      otherwise it leaves that conversation alone. */
  lemma AckCompletesItsAccept(s: State, k: nat, p: MappedPort)
    requires Inv(s) && k < |s.reqs| && s.reqs[k].role == Accept && s.reqs[k].msg.Some?
    requires p in s.ports && Serves(p, s.reqs[k].msg.value.data)
    ensures var a := s.reqs[k].msg.value.data;
      WireAck(s, Form(MtAck, a)) == if a.handle != 0 then Settle(s, k) else s
    ensures Settle(s, k).reqs[k].complete
  {
    var o := s.reqs[k];
    var a := o.msg.value.data;
    assert ReqOk(o);
    var mapped := ToSockAddr(a.family, a.ap);
    var j :| 0 <= j < |s.ports| && s.ports[j] == p;
    assert PortOk(p) && Hit(s.ports[j], mapped, false);
    if a.handle == 0 {
      NoZeroHandle(s.reqs, a, mapped);
    } else {
      assert Wanted(o, a.handle, mapped, {Accept});
      forall i | 0 <= i < k ensures !Wanted(s.reqs[i], a.handle, mapped, {Accept}) {
        assert !Clash(s.reqs[i], o);
      }
    }
  }

  /** The accept of a request for a specific address is always served by its port,
      wildcard ports included. */
  lemma SpecificRequestServed(s: State, m: WireMsg, junk: Endpoint)
    requires Inv(s) && m.ap.ip != 0
    requires Find(s.ports, ToSockAddr(m.family, m.ap), true) < |s.ports|
    ensures var p := s.ports[Find(s.ports, ToSockAddr(m.family, m.ap), true)];
      Serves(p, m.(ap := AcceptedAt(p, m.family, m.ap, junk)))
  {
    assert PortOk(s.ports[Find(s.ports, ToSockAddr(m.family, m.ap), true)]);
  }

  /** An accept of the newest query is answered at once and acknowledged. */
  lemma AcceptReaches(s: State, m: WireMsg, from: SockAddr, env: WireEnv)
    requires |s.reqs| > 0 && s.reqs[0].role == Query && !s.reqs[0].complete && s.reqs[0].handle == m.handle != 0
    requires m.mt == MtAcc && ToSockAddr(m.family, m.cp) == s.reqs[0].src
    requires FindSame(s.ports, s.reqs[0].src, true) < |s.ports|
    requires env.netlink && env.buffers && env.send
    ensures Found(s, m) == 0
    ensures var s' := WireAccept(s, m, from, env).s;
      s'.out == s.out + [AnswerFor(s, m)] && |s'.pending| > 0 && s'.pending[0] == SendMsg(from, Form(MtAck, m))
  {
    TickAllFrame(Settle(s, 0), env.ticks);
  }

  /** First leg: the request names both addresses and carries the local mapping. */
  lemma QueryLeg(s: State, client: nat, nl: NlHeader, local: SockAddr, remote: SockAddr, q: QueryEnv)
    requires Inv(s) && Unallocated(s, q.handle) && q.send
    requires Posted(s, client, local, remote, q) && SameFamily(local, remote) && !IsWildcard(local)
    ensures var s' := QueryMapping(s, client, nl, local, remote, q).s;
      && s'.out == s.out && |s'.pending| > 0 && |s'.reqs| > 0
      && s'.reqs[0].role == Query && !s'.reqs[0].complete && s'.reqs[0].handle == q.handle && s'.reqs[0].nl == nl
      && s'.reqs[0].src == local && s'.reqs[0].remote == remote && s'.reqs[0].id == |s.issued|
      && s'.pending[0].dest == WithPort(remote, IWARP_PM_PORT)
      && var m := s'.pending[0].data;
         && m.mt == MtReq && m.handle == q.handle
         && ToSockAddr(m.family, m.ap) == remote && ToSockAddr(m.family, m.cp) == local
         && var i := FindSame(s'.ports, local, true);
            i < |s'.ports| && s'.ports[i].mapped == ToSockAddr(m.family, m.mappedCp)
  {
    var s' := QueryMapping(s, client, nl, local, remote, q).s;
    QueryMappingInv(s, client, nl, local, remote, q);
    var slot := SlotFor(s, local, client, q.port);
    var k := if slot.Listed? then slot.i else 0;
    if slot.Listed? { assert PortOk(s.ports[slot.i]); }
    assert s'.ports[k].local == local && PortOk(s'.ports[k]);
    FoundAt(s'.ports, k, local);
  }

  /** Second leg: the accept tells the peer's mapping, the notice tells ours. */
  lemma RequestLeg(s: State, m: WireMsg, remote: SockAddr, from: SockAddr, env: WireEnv)
    requires Inv(s) && env.buffers && env.send && env.netlink && !Tracked(s, m, env.junk)
    requires remote == ToSockAddr(m.family, m.ap) && !IsWildcard(remote) && Find(s.ports, remote, true) < |s.ports|
    ensures var p := s.ports[Find(s.ports, remote, true)];
      var s' := WireRequest(s, m, from, env).s;
      && |s'.pending| > 0 && |s'.reqs| > 0 && s'.ports == s.ports
      && s'.reqs[0].role == Accept && !s'.reqs[0].complete && s'.reqs[0].msg == Some(s'.pending[0])
      && s'.pending[0].dest == from
      && s'.out == s.out
           + [RemoteInfo(p.owner, p.local, ToSockAddr(m.family, m.cp), p.mapped, ToSockAddr(m.family, m.mappedCp))]
      && var acc := s'.pending[0].data;
         && acc.mt == MtAcc && acc.handle == m.handle && acc.family == m.family && acc.cp == m.cp && Serves(p, acc)
         && ToSockAddr(acc.family, acc.ap) == if p.wcard then WithPort(remote, PortOf(p.mapped)) else p.mapped
  {
    TickAllFrame(s, env.ticks);
    SpecificRequestServed(s, m, env.junk);
    assert PortOk(s.ports[Find(s.ports, remote, true)]);
  }

  /** The whole exchange: with nothing lost, a query for a specific address that the
      peer maps is answered with that mapping, the peer's client is told the mapping of
      the querying side, and the acknowledgement closes the peer's conversation. */
  lemma Handshake(a: State, b: State, client: nat, nl: NlHeader, local: SockAddr, remote: SockAddr, q: QueryEnv,
                  atA: SockAddr, atB: SockAddr, envA: WireEnv, envB: WireEnv)
    returns (a1: State, b1: State, a2: State, b2: State)
    requires Inv(a) && Inv(b) && Unallocated(a, q.handle) && q.send
    requires Posted(a, client, local, remote, q) && SameFamily(local, remote)
    requires !IsWildcard(local) && !IsWildcard(remote)
    requires envA.netlink && envA.buffers && envA.send && envB.netlink && envB.buffers && envB.send
    requires Find(b.ports, remote, true) < |b.ports|
    requires forall o | o in b.reqs && o.role == Accept :: o.handle != q.handle
    ensures a1 == QueryMapping(a, client, nl, local, remote, q).s && |a1.pending| > 0
    ensures b1 == WireRequest(b, a1.pending[0].data, atA, envB).s && |b1.pending| > 0
    ensures a2 == WireAccept(a1, b1.pending[0].data, atB, envA).s && |a2.pending| > 0
    ensures b2 == WireAck(b1, a2.pending[0].data)
    ensures |a2.out| > 0 && |b1.out| > 0 && a2.out[|a2.out| - 1].Answer?
    ensures
      var p := b.ports[Find(b.ports, remote, true)];
      var n := a2.out[|a2.out| - 1];
      && n == Answer(|a.issued|, nl, n.owner, local, remote, n.mappedLocal,
                     if p.wcard then WithPort(remote, PortOf(p.mapped)) else p.mapped, 0)
      && b1.out[|b1.out| - 1] == RemoteInfo(p.owner, p.local, local, p.mapped, n.mappedLocal)
    ensures |b1.reqs| > 0 && b1.reqs[0].role == Accept && !b1.reqs[0].complete
    ensures |b2.reqs| == |b1.reqs| && b2.reqs[0] == b1.reqs[0].(complete := true, timeout := 0)
  {
    a1 := QueryMapping(a, client, nl, local, remote, q).s;
    QueryLeg(a, client, nl, local, remote, q);
    var req := a1.pending[0].data;
    b1 := WireRequest(b, req, atA, envB).s;
    RequestLeg(b, req, remote, atA, envB);
    WireRequestInv(b, req, atA, envB);
    var acc := b1.pending[0].data;
    a2 := WireAccept(a1, acc, atB, envA).s;
    AcceptReaches(a1, acc, atB, envA);
    b2 := WireAck(b1, a2.pending[0].data);
    AckCompletesItsAccept(b1, 0, b.ports[Find(b.ports, remote, true)]);
  }

  // ---- restart ----

  /** One mapping as its client reports it. */
  datatype Entry = Entry(client: nat, local: SockAddr, mapped: SockAddr, env: PortEnv)

  /** A mapping that can be bound again under its own number, with the calls succeeding. */
  predicate Rebindable(e: Entry) {
    && !e.local.Other? && SameFamily(e.local, e.mapped) && e.env.alloc
    && (e.env.noPortMap || (e.env.bind.Bound? && PortOf(e.mapped) != 0))
  }

  ghost predicate Independent(es: seq<Entry>) {
    forall i, j | 0 <= i < j < |es| :: !Conflict(es[i].local, es[j].local)
  }

  /** The clients report their mappings one by one. */
  function Replay(s: State, es: seq<Entry>): State {
    if es == [] then s
    else
      var e := es[|es| - 1];
      MapInfo(Replay(s, es[..|es| - 1]), e.client, NO_HEADER, e.local, e.mapped, e.env).s
  }

  /** The table that lists exactly these mappings, last reported first. */
  function Listing(es: seq<Entry>): Table {
    if es == [] then []
    else [NewPort(es[|es| - 1].client, es[|es| - 1].local, es[|es| - 1].mapped)] + Listing(es[..|es| - 1])
  }

  /** How many of the mappings client `c` reports. */
  function ReportedBy(es: seq<Entry>, c: nat): nat {
    if es == [] then 0 else ReportedBy(es[..|es| - 1], c) + if es[|es| - 1].client == c then 1 else 0
  }

  function Counted(s: State, c: nat): nat { if c in s.mapinfo then s.mapinfo[c] else 0 }

  lemma {:induction false} ListingAt(es: seq<Entry>)
    ensures |Listing(es)| == |es|
    ensures forall i | 0 <= i < |es| ::
      Listing(es)[i] == NewPort(es[|es| - 1 - i].client, es[|es| - 1 - i].local, es[|es| - 1 - i].mapped)
  {
    if es == [] {
    } else {
      ListingAt(es[..|es| - 1]);
    }
  }

  lemma {:induction false} ReplayInv(s: State, es: seq<Entry>)
    requires Inv(s)
    ensures Inv(Replay(s, es))
  {
    if es == [] {
    } else {
      var e := es[|es| - 1];
      ReplayInv(s, es[..|es| - 1]);
      MapInfoInv(Replay(s, es[..|es| - 1]), e.client, NO_HEADER, e.local, e.mapped, e.env);
    }
  }

  /** Replaying rebindable mappings into an empty daemon lists exactly them, each with its
      owner, in whatever order they come, if and only if they are pairwise independent. */
  lemma ReplayRebuilds(es: seq<Entry>)
    requires forall i | 0 <= i < |es| :: Rebindable(es[i])
    ensures Replay(START, es).ports == Listing(es) <==> Independent(es)
  {
    ListingAt(es);
    StartInv();
    ReplayInv(START, es);
    if Independent(es) {
      ReplayIndependent(es);
    }
    if Replay(START, es).ports == Listing(es) {
      var t := Listing(es);
      forall i, j | 0 <= i < j < |es| ensures !Conflict(es[i].local, es[j].local) {
        assert !Conflict(t[|es| - 1 - j].local, t[|es| - 1 - i].local);
        ConflictSymmetric(es[i].local, es[j].local);
      }
    }
  }

  lemma {:induction false} ReplayIndependent(es: seq<Entry>)
    requires Independent(es) && forall i | 0 <= i < |es| :: Rebindable(es[i])
    ensures Replay(START, es).ports == Listing(es)
  {
    if es == [] {
    } else {
      var es', e := es[..|es| - 1], es[|es| - 1];
      assert Rebindable(e);
      ReplayIndependent(es');
      ListingAt(es');
      StartInv();
      ReplayInv(START, es');
      var t := Replay(START, es').ports;
      forall i | 0 <= i < |t| ensures !Conflict(e.local, t[i].local) {
        ConflictSymmetric(e.local, es'[|es'| - 1 - i].local);
      }
      MissMeansNoConflict(t, e.local);
    }
  }

  /** Reporting a listed mapping again changes nothing but the client's counter. */
  lemma KnownMappingCounted(s: State, client: nat, j: nat, env: PortEnv)
    requires Inv(s) && j < |s.ports| && !s.ports[j].local.Other?
    ensures var r := MapInfo(s, client, NO_HEADER, s.ports[j].local, s.ports[j].mapped, env);
      && r.ok && r.s == s.(mapinfo := r.s.mapinfo)
      && forall c :: Counted(r.s, c) == Counted(s, c) + if c == client then 1 else 0
  {
    assert PortOk(s.ports[j]);
    FoundFirst(s.ports, j, s.ports[j].local);
  }

  ghost predicate AlreadyListed(s: State, e: Entry) {
    !e.local.Other? && exists j | 0 <= j < |s.ports| :: s.ports[j].local == e.local && s.ports[j].mapped == e.mapped
  }

  /** Replaying listed mappings, in any order and any number of times, counts them for
      their clients and changes nothing else. */
  lemma {:induction false} ReplayAgain(s: State, es: seq<Entry>)
    requires Inv(s)
    requires forall i | 0 <= i < |es| :: AlreadyListed(s, es[i])
    ensures Replay(s, es) == s.(mapinfo := Replay(s, es).mapinfo)
    ensures forall c :: Counted(Replay(s, es), c) == Counted(s, c) + ReportedBy(es, c)
  {
    if es == [] {
    } else {
      var es', e := es[..|es| - 1], es[|es| - 1];
      ReplayAgain(s, es');
      ReplayInv(s, es');
      assert AlreadyListed(s, e);
      var j :| 0 <= j < |s.ports| && s.ports[j].local == e.local && s.ports[j].mapped == e.mapped;
      KnownMappingCounted(Replay(s, es'), e.client, j, e.env);
    }
  }
}
