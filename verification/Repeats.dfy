/** One daemon over a sequence of its events: a repeated request is ignored and a repeated
    accept is acknowledged again, for as long as the tracking object of the conversation
    lives. */
module Repeats {
  import opened Addresses
  import opened Options
  import opened PortTable
  import opened Requests
  import opened Daemon
  import opened Network
  import C = Conversations
  import E = Effects

  /** The events of one daemon, one after the other. */
  function Serve(s: State, es: seq<Event>): State {
    if es == [] then s else HostNext(Serve(s, es[..|es| - 1]), es[|es| - 1])
  }

  /** Timer passes in an event, those inside a handler included. */
  function Passes(e: Event): nat {
    match e case Timer(_, _) => 1 case Deliver(_, _, env) => |env.ticks| case _ => 0
  }

  function AllPasses(es: seq<Event>): nat {
    if es == [] then 0 else AllPasses(es[..|es| - 1]) + Passes(es[|es| - 1])
  }

  // ---- repeated requests ----

  /** No restart, and no acknowledgement of the conversation. */
  predicate Undisturbed(e: Event, handle: nat) {
    !e.Restart? && (e.Deliver? && e.packet.msg.mt == MtAck ==> e.packet.msg.handle != handle)
  }

  /** The conversation has an incomplete ACCEPT object with at least `t` ticks to go. */
  ghost predicate Alive(rs: seq<MapRequest>, handle: nat, src: SockAddr, t: nat) {
    exists i :: 0 <= i < |rs| && AliveAt(rs[i], handle, src, t)
  }

  predicate AliveAt(o: MapRequest, handle: nat, src: SockAddr, t: nat) {
    o.role == Accept && o.handle == handle && o.src == src && !o.complete && o.timeout >= t
  }

  lemma {:induction false} AliveTick(rs: seq<MapRequest>, handle: nat, src: SockAddr, t: nat)
    requires Alive(rs, handle, src, t + 1)
    ensures Alive(TickReqs(rs), handle, src, t)
  {
    var i :| 0 <= i < |rs| && AliveAt(rs[i], handle, src, t + 1);
    if i == 0 {
      assert AliveAt(TickReqs(rs)[0], handle, src, t);
    } else {
      assert rs[1..][i - 1] == rs[i];
      AliveTick(rs[1..], handle, src, t);
      var j :| 0 <= j < |TickReqs(rs[1..])| && AliveAt(TickReqs(rs[1..])[j], handle, src, t);
      var d := if rs[0].timeout > 0 then 1 else 0;
      assert TickReqs(rs)[j + d] == TickReqs(rs[1..])[j];
    }
  }

  lemma {:induction false} AliveTickAll(s: State, ticks: seq<set<nat>>, handle: nat, src: SockAddr, t: nat)
    requires Alive(s.reqs, handle, src, t + |ticks|)
    ensures Alive(TickAll(s, ticks).reqs, handle, src, t)
    decreases |ticks|
  {
    if ticks == [] {
    } else {
      AliveTick(s.reqs, handle, src, t + |ticks| - 1);
      AliveTickAll(Tick(s, ticks[0]), ticks[1..], handle, src, t);
    }
  }

  lemma AlivePush(rs: seq<MapRequest>, o: MapRequest, handle: nat, src: SockAddr, t: nat)
    requires Alive(rs, handle, src, t)
    ensures Alive([o] + rs, handle, src, t)
  {
    var i :| 0 <= i < |rs| && AliveAt(rs[i], handle, src, t);
    assert ([o] + rs)[i + 1] == rs[i];
  }

  /** Settling another object leaves the conversation alive. */
  lemma AliveSettle(s: State, k: nat, handle: nat, src: SockAddr, t: nat)
    requires Alive(s.reqs, handle, src, t) && k < |s.reqs|
    requires s.reqs[k].role == Accept ==> s.reqs[k].handle != handle
    ensures Alive(Settle(s, k).reqs, handle, src, t)
  {
    var i :| 0 <= i < |s.reqs| && AliveAt(s.reqs[i], handle, src, t);
    assert AliveAt(Settle(s, k).reqs[i], handle, src, t);
  }

  lemma AliveLess(rs: seq<MapRequest>, handle: nat, src: SockAddr, t: nat, t': nat)
    requires Alive(rs, handle, src, t) && t' <= t
    ensures Alive(rs, handle, src, t')
  {
    var i :| 0 <= i < |rs| && AliveAt(rs[i], handle, src, t);
    assert AliveAt(rs[i], handle, src, t');
  }

  lemma AliveRequest(s: State, m: WireMsg, from: SockAddr, env: WireEnv, handle: nat, src: SockAddr, t: nat)
    requires Alive(s.reqs, handle, src, t + |env.ticks|)
    ensures Alive(WireRequest(s, m, from, env).s.reqs, handle, src, t)
  {
    AliveLess(s.reqs, handle, src, t + |env.ticks|, t);
    AliveTickAll(s, env.ticks, handle, src, t);
    var i := Find(s.ports, ToSockAddr(m.family, m.ap), true);
    if i < |s.ports| {
      var ap := AcceptedAt(s.ports[i], m.family, m.ap, env.junk);
      AlivePush(TickAll(s, env.ticks).reqs, AcceptFor(m, ap, from, env.address), handle, src, t);
    }
  }

  lemma AliveReply(s: State, m: WireMsg, from: SockAddr, env: WireEnv, handle: nat, src: SockAddr, t: nat)
    requires m.mt == MtAcc || m.mt == MtRej
    requires Alive(s.reqs, handle, src, t + |env.ticks|)
    ensures Alive(Dispatch(s, m, from, env).s.reqs, handle, src, t)
  {
    AliveLess(s.reqs, handle, src, t + |env.ticks|, t);
    var k := C.Found(s, m);
    if k < |s.reqs| {
      var o := s.reqs[k];
      AliveSettle(s, k, handle, src, t + |env.ticks|);
      AliveTickAll(Settle(s, k), env.ticks, handle, src, t);
      AlivePush(TickAll(Settle(s, k), env.ticks).reqs,
                NewRequest(NO_HEADER, o.src, o.remote, o.handle, Ack, None, env.address, o.id), handle, src, t);
    }
  }

  lemma AliveNext(s: State, e: Event, handle: nat, src: SockAddr, t: nat)
    requires Alive(s.reqs, handle, src, t + Passes(e)) && Undisturbed(e, handle)
    ensures Alive(HostNext(s, e).reqs, handle, src, t)
  {
    match e {
      case Add(_, client, nl, local, port, reply) =>
      case Ask(_, client, nl, local, remote, query) => AliveAsk(s, client, nl, local, remote, query, handle, src, t);
      case Remove(_, client, local) =>
      case Report(_, client, nl, local, mapped, port) =>
      case Timer(_, failed) => AliveTick(s.reqs, handle, src, t);
      case Send(_, _) =>
      case Deliver(_, packet, env) => AliveDeliver(s, packet.msg, packet.src, env, handle, src, t);
    }
  }

  lemma AliveAsk(s: State, client: nat, nl: NlHeader, local: SockAddr, remote: SockAddr, env: QueryEnv,
                 handle: nat, src: SockAddr, t: nat)
    requires Alive(s.reqs, handle, src, t)
    ensures Alive(QueryMapping(s, client, nl, local, remote, env).s.reqs, handle, src, t)
  {
    var s' := QueryMapping(s, client, nl, local, remote, env).s;
    if s'.reqs != s.reqs { AlivePush(s.reqs, s'.reqs[0], handle, src, t); }
  }

  lemma AliveDeliver(s: State, m: WireMsg, from: SockAddr, env: WireEnv, handle: nat, src: SockAddr, t: nat)
    requires Alive(s.reqs, handle, src, t + |env.ticks|) && (m.mt == MtAck ==> m.handle != handle)
    ensures Alive(Dispatch(s, m, from, env).s.reqs, handle, src, t)
  {
    match m.mt {
      case MtReq => AliveRequest(s, m, from, env, handle, src, t);
      case MtAcc => AliveReply(s, m, from, env, handle, src, t);
      case MtRej => AliveReply(s, m, from, env, handle, src, t);
      case MtAck =>
        AliveLess(s.reqs, handle, src, t + |env.ticks|, t);
        var k := FindReq(s.reqs, m.handle, ToSockAddr(m.family, m.ap), {Accept});
        if k < |s.reqs| { AliveSettle(s, k, handle, src, t); }
    }
  }

  lemma {:induction false} AliveServe(s: State, es: seq<Event>, handle: nat, src: SockAddr, t: nat)
    requires Alive(s.reqs, handle, src, t + AllPasses(es))
    requires forall i | 0 <= i < |es| :: Undisturbed(es[i], handle)
    ensures Alive(Serve(s, es).reqs, handle, src, t)
  {
    if es == [] {
    } else {
      var e := es[|es| - 1];
      AliveServe(s, es[..|es| - 1], handle, src, t + Passes(e));
      AliveNext(Serve(s, es[..|es| - 1]), e, handle, src, t);
    }
  }

  /** Accepting is idempotent: after a request was accepted, and whatever the daemon then
      does, for ten timer passes and until an acknowledgement, a repetition that would be
      accepted at the same address changes nothing: it adds no object and tells no client. */
  lemma RepeatedRequestIgnored(s: State, m: WireMsg, from: SockAddr, env: WireEnv, es: seq<Event>,
                               from': SockAddr, env': WireEnv)
    requires m.handle != 0 && env.buffers && !C.Tracked(s, m, env.junk)
    requires Find(s.ports, ToSockAddr(m.family, m.ap), true) < |s.ports|
    requires AllPasses(es) <= 10 && forall i | 0 <= i < |es| :: Undisturbed(es[i], m.handle)
    requires var s' := Serve(WireRequest(s, m, from, env).s, es);
      && Find(s'.ports, ToSockAddr(m.family, m.ap), true) < |s'.ports|
      && C.AcceptPoint(s', m, env'.junk) == C.AcceptPoint(s, m, env.junk)
    ensures var s' := Serve(WireRequest(s, m, from, env).s, es);
      C.Tracked(s', m, env'.junk) && WireRequest(s', m, from', env') == Outcome(s', true)
  {
    var s1 := WireRequest(s, m, from, env).s;
    var src := ToSockAddr(m.family, C.AcceptPoint(s, m, env.junk));
    C.RequestAccepted(s, m, from, env);
    assert AliveAt(s1.reqs[0], m.handle, src, 10);
    AliveLess(s1.reqs, m.handle, src, 10, AllPasses(es));
    AliveServe(s1, es, m.handle, src, 0);
    var s' := Serve(s1, es);
    var i :| 0 <= i < |s'.reqs| && AliveAt(s'.reqs[i], m.handle, src, 0);
    assert Wanted(s'.reqs[i], m.handle, src, {Accept});
  }

  // ---- repeated accepts ----

  /** No restart, and no new query under an old handle. */
  predicate Unreused(e: Event, handle: nat) {
    !e.Restart? && (e.Ask? ==> e.query.handle != handle)
  }

  /** An accept of the conversation meets an ACK object with at least `t` ticks to go. */
  predicate Known(rs: seq<MapRequest>, handle: nat, src: SockAddr, t: nat) {
    var k := FindReq(rs, handle, src, {Query, Ack});
    k < |rs| && rs[k].role == Ack && !rs[k].complete && rs[k].timeout >= t
  }

  lemma {:induction false} KnownTick(rs: seq<MapRequest>, handle: nat, src: SockAddr, t: nat)
    requires Known(rs, handle, src, t + 1)
    ensures Known(TickReqs(rs), handle, src, t)
  {
    if Wanted(rs[0], handle, src, {Query, Ack}) {
    } else {
      KnownTick(rs[1..], handle, src, t);
      if rs[0].timeout > 0 {
        KnownPush(TickReqs(rs[1..]), rs[0].(timeout := rs[0].timeout - 1), handle, src, t);
      } else {
        assert TickReqs(rs) == TickReqs(rs[1..]);
      }
    }
  }

  lemma {:induction false} KnownTickAll(s: State, ticks: seq<set<nat>>, handle: nat, src: SockAddr, t: nat)
    requires Known(s.reqs, handle, src, t + |ticks|)
    ensures Known(TickAll(s, ticks).reqs, handle, src, t)
    decreases |ticks|
  {
    if ticks == [] {
    } else {
      KnownTick(s.reqs, handle, src, t + |ticks| - 1);
      KnownTickAll(Tick(s, ticks[0]), ticks[1..], handle, src, t);
    }
  }

  /** A new object hides an old ACK object only if it is a longer-lived one. */
  lemma KnownPush(rs: seq<MapRequest>, o: MapRequest, handle: nat, src: SockAddr, t: nat)
    requires Known(rs, handle, src, t)
    requires Wanted(o, handle, src, {Query, Ack}) ==> o.role == Ack && !o.complete && o.timeout >= t
    ensures Known([o] + rs, handle, src, t)
  {
    assert ([o] + rs)[1..] == rs;
  }

  lemma KnownSettle(s: State, k: nat, handle: nat, src: SockAddr, t: nat)
    requires Known(s.reqs, handle, src, t) && k < |s.reqs| && t <= 10
    ensures Known(Settle(s, k).reqs, handle, src, t)
  {
    var i := FindReq(s.reqs, handle, src, {Query, Ack});
    var rs := Settle(s, k).reqs;
    assert Wanted(rs[i], handle, src, {Query, Ack});
    forall j | 0 <= j < i ensures !Wanted(rs[j], handle, src, {Query, Ack}) {
      assert !Wanted(s.reqs[j], handle, src, {Query, Ack});
    }
    assert FindReq(rs, handle, src, {Query, Ack}) == i;
  }

  lemma KnownRequest(s: State, m: WireMsg, from: SockAddr, env: WireEnv, handle: nat, src: SockAddr, t: nat)
    requires Known(s.reqs, handle, src, t + |env.ticks|)
    ensures Known(WireRequest(s, m, from, env).s.reqs, handle, src, t)
  {
    KnownTickAll(s, env.ticks, handle, src, t);
    var i := Find(s.ports, ToSockAddr(m.family, m.ap), true);
    if i < |s.ports| {
      var ap := AcceptedAt(s.ports[i], m.family, m.ap, env.junk);
      KnownPush(TickAll(s, env.ticks).reqs, AcceptFor(m, ap, from, env.address), handle, src, t);
    }
  }

  lemma KnownReply(s: State, m: WireMsg, from: SockAddr, env: WireEnv, handle: nat, src: SockAddr, t: nat)
    requires m.mt == MtAcc || m.mt == MtRej
    requires Known(s.reqs, handle, src, t + |env.ticks|) && t + |env.ticks| <= 10
    ensures Known(Dispatch(s, m, from, env).s.reqs, handle, src, t)
  {
    var k := C.Found(s, m);
    if k < |s.reqs| {
      var o := s.reqs[k];
      KnownSettle(s, k, handle, src, t + |env.ticks|);
      KnownTickAll(Settle(s, k), env.ticks, handle, src, t);
      KnownPush(TickAll(Settle(s, k), env.ticks).reqs,
                NewRequest(NO_HEADER, o.src, o.remote, o.handle, Ack, None, env.address, o.id), handle, src, t);
    }
  }

  lemma KnownDeliver(s: State, m: WireMsg, from: SockAddr, env: WireEnv, handle: nat, src: SockAddr, t: nat)
    requires Known(s.reqs, handle, src, t + |env.ticks|) && t + |env.ticks| <= 10
    ensures Known(Dispatch(s, m, from, env).s.reqs, handle, src, t)
  {
    match m.mt {
      case MtReq => KnownRequest(s, m, from, env, handle, src, t);
      case MtAcc => KnownReply(s, m, from, env, handle, src, t);
      case MtRej => KnownReply(s, m, from, env, handle, src, t);
      case MtAck =>
        var k := FindReq(s.reqs, m.handle, ToSockAddr(m.family, m.ap), {Accept});
        if k < |s.reqs| { KnownSettle(s, k, handle, src, t); }
    }
  }

  lemma KnownAsk(s: State, client: nat, nl: NlHeader, local: SockAddr, remote: SockAddr, env: QueryEnv,
                 handle: nat, src: SockAddr, t: nat)
    requires Known(s.reqs, handle, src, t) && env.handle != handle
    ensures Known(QueryMapping(s, client, nl, local, remote, env).s.reqs, handle, src, t)
  {
    var s' := QueryMapping(s, client, nl, local, remote, env).s;
    if s'.reqs != s.reqs { KnownPush(s.reqs, s'.reqs[0], handle, src, t); }
  }

  lemma KnownNext(s: State, e: Event, handle: nat, src: SockAddr, t: nat)
    requires Known(s.reqs, handle, src, t + Passes(e)) && t + Passes(e) <= 10 && Unreused(e, handle)
    ensures Known(HostNext(s, e).reqs, handle, src, t)
  {
    match e {
      case Add(_, client, nl, local, port, reply) =>
      case Ask(_, client, nl, local, remote, query) => KnownAsk(s, client, nl, local, remote, query, handle, src, t);
      case Remove(_, client, local) =>
      case Report(_, client, nl, local, mapped, port) =>
      case Timer(_, failed) => KnownTick(s.reqs, handle, src, t);
      case Send(_, _) =>
      case Deliver(_, packet, env) => KnownDeliver(s, packet.msg, packet.src, env, handle, src, t);
    }
  }

  lemma {:induction false} KnownServe(s: State, es: seq<Event>, handle: nat, src: SockAddr, t: nat)
    requires Known(s.reqs, handle, src, t + AllPasses(es)) && t + AllPasses(es) <= 10
    requires forall i | 0 <= i < |es| :: Unreused(es[i], handle)
    ensures Known(Serve(s, es).reqs, handle, src, t)
  {
    if es == [] {
    } else {
      var e := es[|es| - 1];
      KnownServe(s, es[..|es| - 1], handle, src, t + Passes(e));
      KnownNext(Serve(s, es[..|es| - 1]), e, handle, src, t);
    }
  }

  /** A lost acknowledgement is made good: after an accept answered its query, and whatever
      the daemon then does for ten timer passes, the same accept again tells nobody
      anything, is acknowledged to its sender, and keeps the ACK object for ten more ticks. */
  lemma RepeatedAcceptAcknowledged(s: State, m: WireMsg, from: SockAddr, env: WireEnv, i: nat, q: nat,
                                   es: seq<Event>, from': SockAddr, env': WireEnv)
    requires Inv(s) && m.mt == MtAcc && E.Awaited(s, m, i, q) && env.netlink && env.buffers
    requires AllPasses(es) <= 10 && forall j | 0 <= j < |es| :: Unreused(es[j], m.handle)
    requires var s' := Serve(WireAccept(s, m, from, env).s, es);
      exists p :: p in s'.ports && p.local == ToSockAddr(m.family, m.cp)
    ensures var s' := Serve(WireAccept(s, m, from, env).s, es);
      var r := WireAccept(s', m, from', env');
      var ack := SendMsg(from', WireMsg(MtAck, m.family, m.ap, m.cp, NOWHERE, m.handle));
      && r.ok == env'.send && r.s.out == s'.out
      && exists k | 0 <= k < |s'.reqs| :: s'.reqs[k].role == Ack && s'.reqs[k].handle == m.handle
           && r.s == E.After(s', [], s'.reqs[k := s'.reqs[k].(timeout := 10)], env'.ticks,
                             if env'.send then [ack] else [], [])
  {
    var s1 := WireAccept(s, m, from, env).s;
    var src := ToSockAddr(m.family, m.cp);
    E.AcceptAnswers(s, m, from, env, i, q);
    assert Wanted(s1.reqs[0], m.handle, src, {Query, Ack});
    assert Known(s1.reqs, m.handle, src, AllPasses(es));
    KnownServe(s1, es, m.handle, src, 0);
    var s' := Serve(s1, es);
    var k := FindReq(s'.reqs, m.handle, src, {Query, Ack});
    assert E.Topic(s'.reqs[k], m, {Query, Ack});
    forall j | 0 <= j < k ensures !E.Topic(s'.reqs[j], m, {Query, Ack}) {
      assert !Wanted(s'.reqs[j], m.handle, src, {Query, Ack});
    }
    E.AcceptReacknowledged(s', m, from', env', k);
  }
}
