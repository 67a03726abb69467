/** The daemon as it runs: lists updated in place by the handlers of the main thread and
    by the timer and sender threads. Each method carries out the corresponding function
    of module Daemon; `Handle` serves any event and keeps the invariant. */
module PortMapper {
  import opened Addresses
  import opened Options
  import opened PortTable
  import opened Requests
  import D = Daemon
  import N = Network

  /** Messages that get out when attempt `t` on message `k` succeeds iff `ok(k, t)`. */
  function SentOut(ms: seq<SendMsg>, k: nat, ok: (nat, nat) -> bool): seq<SendMsg> {
    if ms == [] then []
    else (if ok(k, 0) || ok(k, 1) || ok(k, 2) then [ms[0]] else []) + SentOut(ms[1..], k + 1, ok)
  }

  lemma SentOutStep(sent: seq<SendMsg>, ms: seq<SendMsg>, k: nat, ok: (nat, nat) -> bool)
    requires ms != []
    ensures sent + SentOut(ms, k, ok) ==
            (if ok(k, 0) || ok(k, 1) || ok(k, 2) then sent + [ms[0]] else sent) + SentOut(ms[1..], k + 1, ok)
  {
  }

  lemma {:induction false} SentOutPending(ms: seq<SendMsg>, k: nat, ok: (nat, nat) -> bool)
    ensures forall m | m in SentOut(ms, k, ok) :: m in ms
  {
    if ms == [] {
    } else {
      SentOutPending(ms[1..], k + 1, ok);
    }
  }

  /** The packets in which host `h` sends these messages. */
  function Packets(h: nat, src: SendMsg -> SockAddr, sent: seq<SendMsg>): set<N.Packet> {
    set m | m in sent :: N.Packet(h, src(m), m.dest, m.data)
  }

  ghost predicate LeadsBack(route: (nat, SockAddr) -> nat, sent: set<N.Packet>) {
    forall p | p in sent :: N.Returns(route, p)
  }

  /** A timer pass in progress: `done` is the aged part of the list, `was[pos..]` the
      part still to visit, `sends` the pending messages so far. */
  ghost predicate InPass(was: seq<MapRequest>, before: seq<SendMsg>, failed: set<nat>,
                         done: seq<MapRequest>, pos: nat, sends: seq<SendMsg>)
  {
    && pos <= |was|
    && TickReqs(was) == done + TickReqs(was[pos..])
    && TickSends(was, failed, 0, before) == TickSends(was[pos..], failed, pos, sends)
  }

  lemma PassVisits(was: seq<MapRequest>, before: seq<SendMsg>, failed: set<nat>,
                   done: seq<MapRequest>, pos: nat, sends: seq<SendMsg>)
    requires InPass(was, before, failed, done, pos, sends) && pos < |was| && ReqOk(was[pos])
    ensures var o := was[pos];
      InPass(was, before, failed, done + (if o.timeout > 0 then [o.(timeout := o.timeout - 1)] else []), pos + 1,
             if Resends(o) && pos !in failed then [o.msg.value] + sends else sends)
  {
    assert was[pos..][1..] == was[pos + 1..];
  }

  /** The list in the middle of a pass, taken apart at the object that is visited next. */
  lemma Pieces<T>(done: seq<T>, was: seq<T>, pos: nat)
    requires pos < |was|
    ensures var rs := done + was[pos..];
      rs[..|done|] == done && rs[|done|] == was[pos] && rs[|done| + 1..] == was[pos + 1..]
  {
  }

  const SEND_MSG_RETRIES := 3

  /** `issued`, like the ghost fields, is history: it gives each query its number. */
  class PortMapper {
    var ports: Table
    var reqs: seq<MapRequest>
    var pending: seq<SendMsg>
    var mapinfo: map<nat, nat>
    var issued: seq<D.Issue>
    ghost var out: seq<D.Notice>
    ghost var acquired: multiset<SockAddr>
    ghost var released: multiset<SockAddr>

    ghost function S(): D.State
      reads this
    {
      D.State(ports, reqs, pending, mapinfo, out, issued, acquired, released)
    }

    ghost predicate Valid()
      reads this
    {
      D.Inv(S())
    }

    constructor ()
      ensures Valid() && S() == D.START
    {
      ports, reqs, pending, mapinfo := [], [], [], map[];
      out, issued, acquired, released := [], [], multiset{}, multiset{};
      new;
      D.StartInv();
    }

    // ---- list searches ----

    method FindMapping(search: SockAddr, notMapped: bool) returns (i: nat)
      ensures i == Find(ports, search, notMapped)
    {
      i := 0;
      assert ports[0..] == ports;
      while i < |ports| && !Hit(ports[i], search, notMapped)
        invariant i <= |ports|
        invariant Find(ports, search, notMapped) == i + Find(ports[i..], search, notMapped)
      {
        assert ports[i..][1..] == ports[i + 1..];
        i := i + 1;
      }
    }

    method FindSameMapping(search: SockAddr, notMapped: bool) returns (i: nat)
      ensures i == FindSame(ports, search, notMapped)
    {
      i := 0;
      assert ports[0..] == ports;
      while i < |ports| && !Same(search, Key(ports[i], notMapped))
        invariant i <= |ports|
        invariant FindSame(ports, search, notMapped) == i + FindSame(ports[i..], search, notMapped)
      {
        assert ports[i..][1..] == ports[i + 1..];
        i := i + 1;
      }
    }

    /** Find a tracking object, hand out a copy and, if asked to, settle it. */
    method UpdateMapRequest(handle: nat, src: SockAddr, roles: set<Role>, update: bool) returns (copy: Option<MapRequest>)
      modifies this`reqs
      ensures var k := FindReq(old(reqs), handle, src, roles);
        if k < |old(reqs)| then
          copy == Some(old(reqs)[k]) && reqs == if update then old(reqs)[k := Touch(old(reqs)[k])] else old(reqs)
        else copy == None && reqs == old(reqs)
    {
      var i := 0;
      assert reqs[0..] == reqs;
      while i < |reqs|
        invariant i <= |reqs| && reqs == old(reqs)
        invariant FindReq(reqs, handle, src, roles) == i + FindReq(reqs[i..], handle, src, roles)
      {
        var o := reqs[i];
        if handle == o.handle && o.role in roles && Same(src, o.src) {
          copy := Some(o);
          if update && !o.complete {
            if o.role == Ack {
              o := o.(timeout := MAP_REQ_TIMEOUT, complete := false);
            } else {
              o := o.(timeout := 0, complete := true);
            }
            reqs := reqs[i := o];
          }
          return;
        }
        assert reqs[i..][1..] == reqs[i + 1..];
        i := i + 1;
      }
      copy := None;
    }

    // ---- the other two threads ----

    /** Age the object at position `i`, retransmitting or removing it. */
    method AgeObject(i: nat, copied: bool) returns (kept: bool)
      requires i < |reqs| && ReqOk(reqs[i])
      modifies this`reqs, this`pending
      ensures kept == (old(reqs)[i].timeout > 0)
      ensures var o := old(reqs)[i];
        && reqs == old(reqs)[..i] + (if kept then [o.(timeout := o.timeout - 1)] else []) + old(reqs)[i + 1..]
        && pending == if Resends(o) && copied then [o.msg.value] + old(pending) else old(pending)
    {
      var o := reqs[i];
      kept := o.timeout > 0;
      if kept {
        if o.timeout < MAP_REQ_TIMEOUT && o.role != Ack && copied {
          pending := [o.msg.value] + pending;
        }
        reqs := reqs[i := o.(timeout := o.timeout - 1)];
      } else {
        reqs := reqs[..i] + reqs[i + 1..];
      }
    }

    /** One pass of the timer thread over the request list. */
    method TimerPass(failed: set<nat>)
      requires ReqsOk(reqs)
      modifies this`reqs, this`pending
      ensures S() == D.Tick(old(S()), failed)
    {
      var i, pos := 0, 0;
      ghost var was, done := reqs, [];
      assert was[0..] == was;
      while i < |reqs|
        invariant i == |done| && pos <= |was| && reqs == done + was[pos..]
        invariant InPass(was, old(pending), failed, done, pos, pending)
        decreases |was| - pos
      {
        var kept;
        kept, done := Visit(i, pos, failed, was, old(pending), done);
        pos := pos + 1;
        if kept { i := i + 1; }
      }
    }

    /** One object of a pass. */
    method Visit(i: nat, pos: nat, failed: set<nat>, ghost was: seq<MapRequest>, ghost before: seq<SendMsg>,
                 ghost done: seq<MapRequest>) returns (kept: bool, ghost done': seq<MapRequest>)
      requires ReqsOk(was) && i == |done| && pos < |was| && reqs == done + was[pos..]
      requires InPass(was, before, failed, done, pos, pending)
      modifies this`reqs, this`pending
      ensures |done'| == i + (if kept then 1 else 0) && reqs == done' + was[pos + 1..]
      ensures InPass(was, before, failed, done', pos + 1, pending)
    {
      ghost var o := was[pos];
      Pieces(done, was, pos);
      PassVisits(was, before, failed, done, pos, pending);
      kept := AgeObject(i, pos !in failed);
      done' := done + if o.timeout > 0 then [o.(timeout := o.timeout - 1)] else [];
    }

    /** Timer passes that happen while a handler is between two critical sections. */
    method TimerPasses(ticks: seq<set<nat>>)
      requires ReqsOk(reqs)
      modifies this`reqs, this`pending
      ensures S() == D.TickAll(old(S()), ticks)
    {
      var i := 0;
      assert ticks[0..] == ticks;
      while i < |ticks|
        invariant i <= |ticks| && ReqsOk(reqs)
        invariant D.TickAll(S(), ticks[i..]) == D.TickAll(old(S()), ticks)
      {
        assert ticks[i..][1..] == ticks[i + 1..];
        TickAges(reqs);
        TimerPass(ticks[i]);
        i := i + 1;
      }
    }

    /** The sender thread pops every pending message, trying each up to three times. */
    method SenderPass(ok: (nat, nat) -> bool) returns (sent: seq<SendMsg>)
      modifies this`pending
      ensures pending == [] && sent == SentOut(old(pending), 0, ok)
    {
      sent := [];
      var k := 0;
      while pending != []
        invariant SentOut(old(pending), 0, ok) == sent + SentOut(pending, k, ok)
        decreases |pending|
      {
        SentOutStep(sent, pending, k, ok);
        var m := pending[0];
        pending := pending[1..];
        var done := Attempt(ok, k);
        if done { sent := sent + [m]; }
        k := k + 1;
      }
    }

    /** Send message `k`, again after each failure, as long as there are retries. */
    static method Attempt(ok: (nat, nat) -> bool, k: nat) returns (done: bool)
      ensures done == (ok(k, 0) || ok(k, 1) || ok(k, 2))
    {
      var retries, tries := SEND_MSG_RETRIES, 0;
      done := false;
      while retries > 0
        invariant 0 <= retries <= SEND_MSG_RETRIES
        invariant !done ==> tries == SEND_MSG_RETRIES - retries && forall t | 0 <= t < tries :: !ok(k, t)
        invariant done ==> retries == 0 && 0 <= tries < 3 && ok(k, tries)
        decreases retries
      {
        if ok(k, tries) {
          retries, done := 0, true;
        } else {
          retries, tries := retries - 1, tries + 1;
        }
      }
    }

    // ---- what the handlers share ----

    /** Start to track a conversation. */
    method Track(o: MapRequest)
      modifies this`reqs
      ensures S() == D.Push(old(S()), o)
    {
      reqs := [o] + reqs;
    }

    /** Queue a message for the sender, if a copy can be had. */
    method Queue(m: SendMsg, ok: bool)
      modifies this`pending
      ensures S() == D.Post(old(S()), m, ok)
    {
      if ok { pending := [m] + pending; }
    }

    /** Send a netlink message. */
    method Tell(n: D.Notice, ok: bool)
      modifies this`out
      ensures S() == D.Notify(old(S()), n, ok)
    {
      if ok { out := out + [n]; }
    }

    // ---- client requests ----

    /** Tell the client that its request failed. */
    method Refuse(client: nat, nl: NlHeader, code: nat)
      modifies this`out
      ensures S() == D.Notify(old(S()), D.Failure(client, nl.seqno, code), true)
    {
      Tell(D.Failure(client, nl.seqno, code), true);
    }

    /** Link a port into the list unless its count says it is there already. */
    method AddMappedPort(p: MappedPort)
      modifies this`ports
      ensures ports == if p.refs > 1 then old(ports) else [p] + old(ports)
    {
      if p.refs > 1 { return; }
      ports := [p] + ports;
    }

    /** Take a reference on the listed port at `i`, or set a new port up for `local`. */
    method Reserve(i: nat, local: SockAddr, client: nat, env: D.PortEnv) returns (slot: D.Slot)
      requires i == Find(ports, local, true)
      modifies this`ports
      ensures slot == D.SlotFor(old(S()), local, client, env)
      ensures ports == D.Reserved(old(ports), slot)
    {
      if i < |ports| {
        ports := Bump(ports, i, 1);
        return D.Listed(i);
      }
      var created := CreatePort(local, client, env.noPortMap, env.bind, env.alloc);
      match created
      case Some(p) => return D.Fresh(p);
      case None => return D.NoSlot;
    }

    /** Take the reservation back. */
    method Unreserve(slot: D.Slot, ghost t: Table)
      requires (slot.Listed? ==> slot.i < |t|) && ports == D.Reserved(t, slot)
      modifies this`ports
      ensures ports == t
    {
      if slot.Listed? {
        BumpBack(t, slot.i);
        ports := Bump(ports, slot.i, -1);
      }
    }

    /** List the reserved port. */
    method Commit(slot: D.Slot, p: MappedPort, ghost t: Table)
      requires TableOk(t) && !slot.NoSlot? && (slot.Listed? ==> slot.i < |t|) && ports == D.Reserved(t, slot)
      requires p == (if slot.Listed? then ports[slot.i] else slot.p) && (slot.Fresh? ==> p.refs == 1)
      modifies this`ports, this`acquired
      ensures ports == if slot.Listed? then Bump(t, slot.i, 1) else [slot.p] + t
      ensures acquired == old(acquired) + multiset{p.local}
    {
      assert slot.Listed? ==> PortOk(t[slot.i]);
      acquired := acquired + multiset{p.local};
      AddMappedPort(p);
    }

    method AddMapping(client: nat, nl: NlHeader, local: SockAddr, env: D.PortEnv, reply: bool) returns (ok: bool)
      requires TableOk(ports)
      modifies this
      ensures D.Outcome(S(), ok) == D.AddMapping(old(S()), client, nl, local, env, reply)
    {
      var i := FindMapping(local, true);
      if i < |ports| && !(Same(local, ports[i].local) && ports[i].wcard) {
        Refuse(client, nl, D.DUPLICATE_MAPPING_ERR);
        return false;
      }
      var slot := Reserve(i, local, client, env);
      if slot.NoSlot? {
        Refuse(client, nl, D.CREATE_MAPPING_ERR);
        return false;
      }
      if !reply {
        Unreserve(slot, old(ports));
        return false;
      }
      var p := if slot.Listed? then ports[slot.i] else slot.p;
      Tell(D.MappingReply(nl, p.local, p.mapped), true);
      Commit(slot, p, old(ports));
      return true;
    }

    method QueryMapping(client: nat, nl: NlHeader, local: SockAddr, remote: SockAddr, env: D.QueryEnv) returns (ok: bool)
      requires TableOk(ports)
      modifies this
      ensures D.Outcome(S(), ok) == D.QueryMapping(old(S()), client, nl, local, remote, env)
    {
      var i := FindMapping(local, true);
      var slot := Reserve(i, local, client, env.port);
      if slot.NoSlot? {
        Refuse(client, nl, D.CREATE_MAPPING_ERR);
        return false;
      }
      ok := Proceed(client, nl, slot, local, remote, env, old(S()));
    }

    /** A query whose port is reserved: post its request or give the reservation up. */
    method Proceed(client: nat, nl: NlHeader, slot: D.Slot, local: SockAddr, remote: SockAddr, env: D.QueryEnv,
                   ghost s: D.State) returns (ok: bool)
      requires TableOk(s.ports) && !slot.NoSlot? && D.SlotIn(s, slot)
      requires S() == s.(ports := D.Reserved(s.ports, slot)) && (slot.Fresh? ==> slot.p.refs == 1)
      modifies this
      ensures var q := D.SlotPort(s, slot);
        if q.wcard then !ok && S() == D.Notify(s, D.Failure(client, nl.seqno, D.CREATE_MAPPING_ERR), true)
        else if remote.Other? || !env.buffers then !ok && S() == s
        else
          var sm := SendMsg(WithPort(remote, IWARP_PM_PORT), D.RequestFor(local, q.mapped, remote, env));
          ok == env.send && S() == D.Post(D.Hold(D.Ask(s, nl, q, remote, sm, env.handle), slot), sm, env.send)
    {
      var p := if slot.Listed? then ports[slot.i] else slot.p;
      if p.wcard || remote.Other? || !env.buffers {
        Unreserve(slot, s.ports);
        if p.wcard { Refuse(client, nl, D.CREATE_MAPPING_ERR); }
        return false;
      }
      Launch(nl, slot, p, local, remote, env, s);
      return env.send;
    }

    /** Post the request of a query whose port is reserved. */
    method Launch(nl: NlHeader, slot: D.Slot, p: MappedPort, local: SockAddr, remote: SockAddr, env: D.QueryEnv,
                  ghost s: D.State)
      requires TableOk(s.ports) && !slot.NoSlot? && D.SlotIn(s, slot) && !remote.Other?
      requires S() == s.(ports := D.Reserved(s.ports, slot)) && (slot.Fresh? ==> slot.p.refs == 1)
      requires p == if slot.Listed? then ports[slot.i] else slot.p
      modifies this
      ensures var q := D.SlotPort(s, slot);
        var sm := SendMsg(WithPort(remote, IWARP_PM_PORT), D.RequestFor(local, q.mapped, remote, env));
        S() == D.Post(D.Hold(D.Ask(s, nl, q, remote, sm, env.handle), slot), sm, env.send)
    {
      var sm := Ask(nl, p, local, remote, env);
      Commit(slot, p, s.ports);
      Queue(sm, env.send);
    }

    /** Record the query and start to track it. */
    method Ask(nl: NlHeader, p: MappedPort, local: SockAddr, remote: SockAddr, env: D.QueryEnv) returns (sm: SendMsg)
      requires !remote.Other?
      modifies this`reqs, this`issued
      ensures sm == SendMsg(WithPort(remote, IWARP_PM_PORT), D.RequestFor(local, p.mapped, remote, env))
      ensures S() == D.Ask(old(S()), nl, p, remote, sm, env.handle)
    {
      var f := FamilyOf(remote);
      var m := WireMsg(MtReq, f, Endpoint(remote.ip, remote.port), ReadAs(f, local, env.junkCp),
                       ReadAs(f, p.mapped, env.junkMapped), env.handle);
      sm := SendMsg(WithPort(remote, IWARP_PM_PORT), m);
      Track(NewRequest(nl, p.local, remote, 0, Query, Some(sm), env.handle, |issued|));
      issued := issued + [D.Issue(p.local, p.mapped, remote, m)];
    }

    method RemoveMapping(client: nat, local: SockAddr)
      modifies this
      ensures S() == D.RemoveMapping(old(S()), client, local)
    {
      var i := FindSameMapping(local, true);
      if i < |ports| && ports[i].owner == client {
        released := released + multiset{ports[i].local};
        var p := ports[i];
        ports := Bump(ports, i, -1);
        if p.refs == 1 {
          assert ports[..i] == old(ports)[..i] && ports[i + 1..] == old(ports)[i + 1..];
          ports := ports[..i] + ports[i + 1..];
        }
      }
    }

    method MapInfo(client: nat, nl: NlHeader, local: SockAddr, mapped: SockAddr, env: D.PortEnv) returns (ok: bool)
      modifies this
      ensures D.Outcome(S(), ok) == D.MapInfo(old(S()), client, nl, local, mapped, env)
    {
      var i := FindMapping(local, true);
      if i < |ports| {
        if !(Same(ports[i].local, local) && Same(ports[i].mapped, mapped)) {
          Refuse(client, nl, D.DUPLICATE_MAPPING_ERR);
          return false;
        }
      } else {
        var reopened := Reopen(client, local, mapped, env);
        if !reopened {
          Refuse(client, nl, D.CREATE_MAPPING_ERR);
          return false;
        }
      }
      Count(client);
      return true;
    }

    /** One more mapping reported by the client. */
    method Count(client: nat)
      modifies this`mapinfo
      ensures S() == D.Count(old(S()), client)
    {
      mapinfo := mapinfo[client := 1 + if client in mapinfo then mapinfo[client] else 0];
    }

    /** Bind a reported mapping again and list it. */
    method Reopen(client: nat, local: SockAddr, mapped: SockAddr, env: D.PortEnv) returns (ok: bool)
      modifies this`ports, this`acquired
      ensures var r := ReopenPort(local, mapped, client, env.noPortMap, env.bind, env.alloc);
        ok == r.Some? && S() == if ok then D.Insert(old(S()), r.value) else old(S())
    {
      var created := ReopenPort(local, mapped, client, env.noPortMap, env.bind, env.alloc);
      ok := created.Some?;
      if ok {
        acquired := acquired + multiset{created.value.local};
        AddMappedPort(created.value);
      }
    }

    // ---- messages from peers ----

    method WireRequest(m: WireMsg, from: SockAddr, env: D.WireEnv) returns (ok: bool)
      requires ReqsOk(reqs)
      modifies this
      ensures D.Outcome(S(), ok) == D.WireRequest(old(S()), m, from, env)
    {
      var i := FindMapping(ToSockAddr(m.family, m.ap), true);
      if i == |ports| {
        Queue(SendMsg(from, Form(MtRej, m)), env.send);
        return env.send;
      }
      var p := ports[i];
      var ap := if p.wcard then Endpoint(m.ap.ip, PortOf(p.mapped)) else ReadAs(m.family, p.mapped, env.junk);
      var copy := UpdateMapRequest(m.handle, ToSockAddr(m.family, ap), {Accept}, false);
      if copy.Some? { return true; }
      TimerPasses(env.ticks);
      if !env.buffers { return false; }
      ok := Admit(p, m, ap, from, env);
    }

    /** Track an accepted request, send the accept, and tell the port's owner. */
    method Admit(p: MappedPort, m: WireMsg, ap: Endpoint, from: SockAddr, env: D.WireEnv) returns (ok: bool)
      modifies this
      ensures ok == (env.send && env.netlink)
      ensures var o := D.AcceptFor(m, ap, from, env.address);
        var n := D.RemoteInfo(p.owner, p.local, ToSockAddr(m.family, m.cp), p.mapped, ToSockAddr(m.family, m.mappedCp));
        S() == D.Notify(D.Post(D.Push(old(S()), o), o.msg.value, env.send), n, env.send && env.netlink)
    {
      var o := D.AcceptFor(m, ap, from, env.address);
      Track(o);
      Queue(o.msg.value, env.send);
      if !env.send { return false; }
      var remote := ToSockAddr(m.family, m.cp);
      Tell(D.RemoteInfo(p.owner, p.local, remote, p.mapped, ToSockAddr(m.family, m.mappedCp)), env.netlink);
      return env.netlink;
    }

    /** Find the conversation of an accept or reject and settle it, with timer passes after
        that; nothing is left to do for a copy that is missing or complete already. */
    method TakeUp(handle: nat, src: SockAddr, roles: set<Role>, ticks: seq<set<nat>>) returns (copy: Option<MapRequest>)
      requires ReqsOk(reqs)
      modifies this`reqs, this`pending
      ensures var k := FindReq(old(reqs), handle, src, roles);
        if k == |old(reqs)| || old(reqs)[k].complete then copy == None && S() == old(S())
        else copy == Some(old(reqs)[k]) && S() == D.TickAll(D.Settle(old(S()), k), ticks)
    {
      ghost var k := FindReq(reqs, handle, src, roles);
      if k < |reqs| { TouchOk(reqs, k); }
      copy := UpdateMapRequest(handle, src, roles, true);
      if copy.None? || copy.value.complete {
        assert reqs == old(reqs);
        return None;
      }
      assert S() == D.Settle(old(S()), k);
      TimerPasses(ticks);
    }

    method WireAccept(m: WireMsg, from: SockAddr, env: D.WireEnv) returns (ok: bool)
      requires ReqsOk(reqs)
      modifies this
      ensures D.Outcome(S(), ok) == D.WireAccept(old(S()), m, from, env)
    {
      var i := FindSameMapping(ToSockAddr(m.family, m.cp), true);
      if i == |ports| { return true; }
      var p := ports[i];
      var copy := TakeUp(m.handle, p.local, {Query, Ack}, env.ticks);
      if copy.None? { return true; }
      var o := copy.value;
      if o.role != Ack {
        Tell(D.Answer(o.id, o.nl, p.owner, p.local, o.remote, p.mapped, ToSockAddr(m.family, m.ap), 0), env.netlink);
        if !env.netlink || !env.buffers { return false; }
        Track(NewRequest(NO_HEADER, o.src, o.remote, o.handle, Ack, None, env.address, o.id));
      }
      Queue(SendMsg(from, Form(MtAck, m)), env.send);
      return env.send;
    }

    method WireReject(m: WireMsg, env: D.WireEnv) returns (ok: bool)
      requires ReqsOk(reqs)
      modifies this
      ensures D.Outcome(S(), ok) == D.WireReject(old(S()), m, env)
    {
      var i := FindSameMapping(ToSockAddr(m.family, m.cp), true);
      if i == |ports| { return true; }
      var p := ports[i];
      var copy := TakeUp(m.handle, p.local, {Query}, env.ticks);
      if copy.None? { return true; }
      var o := copy.value;
      Tell(D.Answer(o.id, o.nl, p.owner, p.local, o.remote, p.mapped, o.remote, D.REMOTE_QUERY_REJECT), env.netlink);
      return env.netlink;
    }

    method WireAck(m: WireMsg)
      modifies this
      ensures S() == D.WireAck(old(S()), m)
    {
      var mapped := ToSockAddr(m.family, m.ap);
      var i := FindMapping(mapped, false);
      if i < |ports| {
        var _ := UpdateMapRequest(m.handle, mapped, {Accept}, true);
      }
    }

    method Dispatch(m: WireMsg, from: SockAddr, env: D.WireEnv) returns (ok: bool)
      requires ReqsOk(reqs)
      modifies this
      ensures D.Outcome(S(), ok) == D.Dispatch(old(S()), m, from, env)
    {
      match m.mt
      case MtReq => ok := WireRequest(m, from, env);
      case MtAcc => ok := WireAccept(m, from, env);
      case MtRej => ok := WireReject(m, env);
      case MtAck => WireAck(m); ok := true;
    }

    /** Serve one event: what the daemon does next in a run of the network model, with
        the invariant kept. */
    method Handle(e: N.Event)
      requires Valid() && !e.Restart? && !e.Send?
      requires e.Ask? ==> D.Unallocated(S(), e.query.handle)
      requires e.Deliver? && e.packet.msg.mt == MtReq ==> !D.Collides(S(), e.packet.msg, e.env)
      modifies this
      ensures Valid() && S() == N.HostNext(old(S()), e)
    {
      N.HostNextInv(S(), e);
      match e
      case Add(_, client, nl, local, port, reply) => var _ := AddMapping(client, nl, local, port, reply);
      case Ask(_, client, nl, local, remote, query) => var _ := QueryMapping(client, nl, local, remote, query);
      case Remove(_, client, local) => RemoveMapping(client, local);
      case Report(_, client, nl, local, mapped, port) => var _ := MapInfo(client, nl, local, mapped, port);
      case Timer(_, failed) => TimerPass(failed);
      case Deliver(_, packet, env) => var _ := Dispatch(packet.msg, packet.src, env);
    }

    /** Let the sender run on host `h`: `ok` tells which attempts succeed, `src` from which
        address a message leaves. The result is the event that has then taken place, and
        it is one that can take place in a run whenever the addresses lead back. */
    method Transmit(h: nat, src: SendMsg -> SockAddr, ok: (nat, nat) -> bool) returns (e: N.Event)
      requires Valid()
      modifies this`pending
      ensures e == N.Send(h, Packets(h, src, SentOut(old(pending), 0, ok)))
      ensures Valid() && S() == N.HostNext(old(S()), e)
      ensures forall route | LeadsBack(route, e.sent) :: forall p | p in e.sent :: N.MayLeave(route, old(S()), h, p)
    {
      SentOutPending(pending, 0, ok);
      var sent := SenderPass(ok);
      e := N.Send(h, Packets(h, src, sent));
      N.HostNextInv(old(S()), e);
    }
  }
}
