/** One port mapper daemon as a value: every handler is a function from the old state
    and the outcomes of its system calls to the new state, and every handler keeps the
    invariant `Inv`. The class in PortMapper.dfy carries out these functions in place. */
module Daemon {
  import opened Addresses
  import opened Options
  import opened PortTable
  import opened Requests

  /** What a client is told over netlink. `Answer` ends a query; it records the number
      of that query. */
  datatype Notice =
    | MappingReply(nl: NlHeader, local: SockAddr, mapped: SockAddr)
    | Answer(id: nat, nl: NlHeader, owner: nat, local: SockAddr, remote: SockAddr,
             mappedLocal: SockAddr, mappedRemote: SockAddr, err: nat)
    | RemoteInfo(owner: nat, local: SockAddr, remote: SockAddr, mappedLocal: SockAddr, mappedRemote: SockAddr)
    | Failure(client: nat, seqno: nat, code: nat)

  const CREATE_MAPPING_ERR := 11
  const DUPLICATE_MAPPING_ERR := 12
  const REMOTE_QUERY_REJECT := 16

  /** History of a query: the port it uses and the request it sent. */
  datatype Issue = Issue(local: SockAddr, mapped: SockAddr, remote: SockAddr, msg: WireMsg)

  /** `issued`, `acquired` and `released` are history: the queries posted so far, one
      after the other, and per local address the references taken and given back. */
  datatype State = State(
    ports: Table,
    reqs: seq<MapRequest>,
    pending: seq<SendMsg>,
    mapinfo: map<nat, nat>,
    out: seq<Notice>,
    issued: seq<Issue>,
    acquired: multiset<SockAddr>,
    released: multiset<SockAddr>)

  const START := State([], [], [], map[], [], [], multiset{}, multiset{})

  datatype Outcome = Outcome(s: State, ok: bool)

  // ---- elementary changes ----

  function Acquire(s: State, i: nat): State
    requires i < |s.ports|
  {
    s.(ports := Bump(s.ports, i, 1), acquired := s.acquired + multiset{s.ports[i].local})
  }

  function Insert(s: State, p: MappedPort): State {
    s.(ports := [p] + s.ports, acquired := s.acquired + multiset{p.local})
  }

  function Release(s: State, i: nat): State
    requires i < |s.ports|
  {
    s.(ports := Drop(s.ports, i), released := s.released + multiset{s.ports[i].local})
  }

  function Push(s: State, o: MapRequest): State { s.(reqs := [o] + s.reqs) }

  function Settle(s: State, i: nat): State
    requires i < |s.reqs|
  {
    s.(reqs := s.reqs[i := Touch(s.reqs[i])])
  }

  /** Queue a message; nothing happens when its copy cannot be allocated. */
  function Post(s: State, m: SendMsg, ok: bool): State {
    if ok then s.(pending := [m] + s.pending) else s
  }

  /** Tell a client something; nothing happens when the netlink send fails. */
  function Notify(s: State, n: Notice, ok: bool): State {
    if ok then s.(out := s.out + [n]) else s
  }

  /** One more mapping reported by the client. */
  function Count(s: State, client: nat): State {
    s.(mapinfo := s.mapinfo[client := 1 + if client in s.mapinfo then s.mapinfo[client] else 0])
  }

  /** One pass of the timer thread. */
  function Tick(s: State, failed: set<nat>): State {
    s.(reqs := TickReqs(s.reqs), pending := TickSends(s.reqs, failed, 0, s.pending))
  }

  /** Timer passes that fall between two critical sections of a handler. */
  function TickAll(s: State, ticks: seq<set<nat>>): State
    decreases |ticks|
  {
    if ticks == [] then s else TickAll(Tick(s, ticks[0]), ticks[1..])
  }

  // ---- client requests ----

  datatype PortEnv = PortEnv(noPortMap: bool, bind: Bind, alloc: bool)

  /** Where a client's local address is kept: a listed entry, or a new one. */
  datatype Slot = Listed(i: nat) | Fresh(p: MappedPort) | NoSlot

  function SlotFor(s: State, local: SockAddr, client: nat, env: PortEnv): (r: Slot)
    ensures r.Listed? ==> r.i < |s.ports| && Hit(s.ports[r.i], local, true)
    ensures r.Fresh? ==> Find(s.ports, r.p.local, true) == |s.ports| && PortOk(r.p) && r.p.local == local && r.p.refs == 1
  {
    var i := Find(s.ports, local, true);
    if i < |s.ports| then Listed(i)
    else match CreatePort(local, client, env.noPortMap, env.bind, env.alloc)
      case Some(p) => Fresh(p)
      case None => NoSlot
  }

  predicate SlotIn(s: State, slot: Slot) { slot.Listed? ==> slot.i < |s.ports| }

  function SlotPort(s: State, slot: Slot): MappedPort
    requires !slot.NoSlot? && SlotIn(s, slot)
  {
    if slot.Listed? then s.ports[slot.i] else slot.p
  }

  function Hold(s: State, slot: Slot): State
    requires !slot.NoSlot? && SlotIn(s, slot)
  {
    if slot.Listed? then Acquire(s, slot.i) else Insert(s, slot.p)
  }

  /** The table while the port of a slot is reserved but not yet listed. */
  function Reserved(t: Table, slot: Slot): Table
    requires slot.Listed? ==> slot.i < |t|
  {
    if slot.Listed? then Bump(t, slot.i, 1) else t
  }

  /** Map a local address. A second owner is admitted for the same wildcard address only. */
  function AddMapping(s: State, client: nat, nl: NlHeader, local: SockAddr, env: PortEnv, reply: bool): Outcome {
    var slot := SlotFor(s, local, client, env);
    if slot.NoSlot? then
      Outcome(Notify(s, Failure(client, nl.seqno, CREATE_MAPPING_ERR), true), false)
    else
      var p := SlotPort(s, slot);
      if slot.Listed? && !(Same(local, p.local) && p.wcard) then
        Outcome(Notify(s, Failure(client, nl.seqno, DUPLICATE_MAPPING_ERR), true), false)
      else if !reply then Outcome(s, false)
      else Outcome(Hold(Notify(s, MappingReply(nl, p.local, p.mapped), true), slot), true)
  }

  /** Outcomes of a query's system calls; `handle` is the address of the new tracking
      object, `junkCp` and `junkMapped` the bytes of a cross-family read. */
  datatype QueryEnv = QueryEnv(port: PortEnv, buffers: bool, handle: Address, junkCp: Endpoint, junkMapped: Endpoint,
                               send: bool)

  /** The request a query puts on the wire. */
  function RequestFor(local: SockAddr, mapped: SockAddr, remote: SockAddr, env: QueryEnv): WireMsg
    requires !remote.Other?
  {
    var f := FamilyOf(remote);
    WireMsg(MtReq, f, Endpoint(remote.ip, remote.port), ReadAs(f, local, env.junkCp),
            ReadAs(f, mapped, env.junkMapped), env.handle)
  }

  /** Start tracking a query for `remote` from port `p`. */
  function Ask(s: State, nl: NlHeader, p: MappedPort, remote: SockAddr, sm: SendMsg, handle: Address): State {
    Push(s.(issued := s.issued + [Issue(p.local, p.mapped, remote, sm.data)]),
         NewRequest(nl, p.local, remote, 0, Query, Some(sm), handle, |s.issued|))
  }

  /** Map the local address and ask the remote port mapper for the remote mapping. */
  function QueryMapping(s: State, client: nat, nl: NlHeader, local: SockAddr, remote: SockAddr, env: QueryEnv): Outcome {
    var slot := SlotFor(s, local, client, env.port);
    if slot.NoSlot? || SlotPort(s, slot).wcard then
      Outcome(Notify(s, Failure(client, nl.seqno, CREATE_MAPPING_ERR), true), false)
    else if remote.Other? || !env.buffers then Outcome(s, false)
    else
      var p := SlotPort(s, slot);
      var sm := SendMsg(WithPort(remote, IWARP_PM_PORT), RequestFor(local, p.mapped, remote, env));
      Outcome(Post(Hold(Ask(s, nl, p, remote, sm, env.handle), slot), sm, env.send), env.send)
  }

  /** Give one reference back; only the owner may, and only on the exact address. */
  function RemoveMapping(s: State, client: nat, local: SockAddr): State {
    var i := FindSame(s.ports, local, true);
    if i == |s.ports| || s.ports[i].owner != client then s else Release(s, i)
  }

  /** A mapping the client already uses, reported after a restart of the daemon. */
  function MapInfo(s: State, client: nat, nl: NlHeader, local: SockAddr, mapped: SockAddr, env: PortEnv): Outcome {
    var i := Find(s.ports, local, true);
    if i < |s.ports| then
      if Same(s.ports[i].local, local) && Same(s.ports[i].mapped, mapped) then Outcome(Count(s, client), true)
      else Outcome(Notify(s, Failure(client, nl.seqno, DUPLICATE_MAPPING_ERR), true), false)
    else match ReopenPort(local, mapped, client, env.noPortMap, env.bind, env.alloc)
      case Some(p) => Outcome(Count(Insert(s, p), client), true)
      case None => Outcome(Notify(s, Failure(client, nl.seqno, CREATE_MAPPING_ERR), true), false)
  }

  // ---- messages from peers ----

  datatype WireEnv = WireEnv(ticks: seq<set<nat>>, buffers: bool, address: Address, send: bool, netlink: bool,
                             junk: Endpoint)

  /** The address a peer should connect to for the requested address `ap`. */
  function AcceptedAt(p: MappedPort, f: Family, ap: Endpoint, junk: Endpoint): Endpoint {
    if p.wcard then Endpoint(ap.ip, PortOf(p.mapped)) else ReadAs(f, p.mapped, junk)
  }

  /** The ACCEPT object that a request creates. */
  function AcceptFor(m: WireMsg, ap: Endpoint, from: SockAddr, address: Address): MapRequest {
    var acc := SendMsg(from, Form(MtAcc, m.(ap := ap)));
    NewRequest(NO_HEADER, ToSockAddr(m.family, ap), ToSockAddr(m.family, m.cp), m.handle, Accept, Some(acc), address, 0)
  }

  /** Answer a peer's request: reject an unknown address, ignore a retransmission,
      otherwise start an ACCEPT conversation and tell the listening client. */
  function WireRequest(s: State, m: WireMsg, from: SockAddr, env: WireEnv): Outcome {
    var i := Find(s.ports, ToSockAddr(m.family, m.ap), true);
    if i == |s.ports| then Outcome(Post(s, SendMsg(from, Form(MtRej, m)), env.send), env.send)
    else
      var p := s.ports[i];
      var ap := AcceptedAt(p, m.family, m.ap, env.junk);
      if FindReq(s.reqs, m.handle, ToSockAddr(m.family, ap), {Accept}) < |s.reqs| then Outcome(s, true)
      else if !env.buffers then Outcome(TickAll(s, env.ticks), false)
      else
        var o := AcceptFor(m, ap, from, env.address);
        var s1 := Post(Push(TickAll(s, env.ticks), o), o.msg.value, env.send);
        if !env.send then Outcome(s1, false)
        else
          Outcome(Notify(s1, RemoteInfo(p.owner, p.local, ToSockAddr(m.family, m.cp), p.mapped,
                                        ToSockAddr(m.family, m.mappedCp)), env.netlink),
                  env.netlink)
  }

  /** A peer accepted: answer the client once, keep an ACK object to recognise
      retransmissions, and acknowledge. */
  function WireAccept(s: State, m: WireMsg, from: SockAddr, env: WireEnv): Outcome {
    var i := FindSame(s.ports, ToSockAddr(m.family, m.cp), true);
    if i == |s.ports| then Outcome(s, true)
    else
      var p := s.ports[i];
      var k := FindReq(s.reqs, m.handle, p.local, {Query, Ack});
      if k == |s.reqs| || s.reqs[k].complete then Outcome(s, true)
      else
        var o := s.reqs[k];
        var s1 := TickAll(Settle(s, k), env.ticks);
        var ack := SendMsg(from, Form(MtAck, m));
        if o.role == Ack then Outcome(Post(s1, ack, env.send), env.send)
        else
          var s2 := Notify(s1, Answer(o.id, o.nl, p.owner, p.local, o.remote, p.mapped,
                                      ToSockAddr(m.family, m.ap), 0), env.netlink);
          if !env.netlink || !env.buffers then Outcome(s2, false)
          else
            var r := NewRequest(NO_HEADER, o.src, o.remote, o.handle, Ack, None, env.address, o.id);
            Outcome(Post(Push(s2, r), ack, env.send), env.send)
  }

  /** A peer rejected: answer the client with an error, once. */
  function WireReject(s: State, m: WireMsg, env: WireEnv): Outcome {
    var i := FindSame(s.ports, ToSockAddr(m.family, m.cp), true);
    if i == |s.ports| then Outcome(s, true)
    else
      var p := s.ports[i];
      var k := FindReq(s.reqs, m.handle, p.local, {Query});
      if k == |s.reqs| || s.reqs[k].complete then Outcome(s, true)
      else
        var o := s.reqs[k];
        Outcome(Notify(TickAll(Settle(s, k), env.ticks),
                       Answer(o.id, o.nl, p.owner, p.local, o.remote, p.mapped, o.remote, REMOTE_QUERY_REJECT),
                       env.netlink),
                env.netlink)
  }

  /** A peer acknowledged our accept: the conversation is over. */
  function WireAck(s: State, m: WireMsg): State {
    var mapped := ToSockAddr(m.family, m.ap);
    if Find(s.ports, mapped, false) == |s.ports| then s
    else
      var k := FindReq(s.reqs, m.handle, mapped, {Accept});
      if k == |s.reqs| then s else Settle(s, k)
  }

  function Dispatch(s: State, m: WireMsg, from: SockAddr, env: WireEnv): Outcome {
    match m.mt
    case MtReq => WireRequest(s, m, from, env)
    case MtAcc => WireAccept(s, m, from, env)
    case MtRej => WireReject(s, m, env)
    case MtAck => Outcome(WireAck(s, m), true)
  }

  // ---- the invariant ----

  function Answers(out: seq<Notice>, id: nat): nat {
    if out == [] then 0
    else
      var n := out[|out| - 1];
      Answers(out[..|out| - 1], id) + if n.Answer? && n.id == id then 1 else 0
  }

  /** References held equal references taken minus references given back, address by address. */
  ghost predicate Balanced(s: State) {
    forall a :: s.acquired[a] == s.released[a] + RefsAt(s.ports, a)
  }

  ghost predicate IssueOk(q: Issue) {
    && !q.remote.Other? && SameFamily(q.local, q.mapped)
    && q.msg.mt == MtReq && q.msg.handle != 0 && q.msg.family == FamilyOf(q.remote)
    && q.msg.ap == Endpoint(q.remote.ip, q.remote.port)
    && (HasFamily(q.mapped, q.msg.family) ==> ToSockAddr(q.msg.family, q.msg.mappedCp) == q.mapped)
  }

  ghost predicate QueryOk(o: MapRequest, issued: seq<Issue>) {
    o.role == Query ==>
      && o.id < |issued|
      && o.handle == issued[o.id].msg.handle
      && o.src == issued[o.id].local
      && o.remote == issued[o.id].remote
      && o.msg == Some(SendMsg(WithPort(o.remote, IWARP_PM_PORT), issued[o.id].msg))
  }

  ghost predicate AnswerOk(n: Notice, issued: seq<Issue>) {
    n.Answer? ==> n.id < |issued| && n.remote == issued[n.id].remote && n.local == issued[n.id].local
  }

  ghost predicate HistoryOk(s: State) {
    && (forall i | 0 <= i < |s.issued| :: IssueOk(s.issued[i]))
    && (forall o | o in s.reqs :: QueryOk(o, s.issued))
    && (forall n | n in s.out :: AnswerOk(n, s.issued))
  }

  /** A query is answered at most once, and not while it is still open. */
  ghost predicate AnsweredOnce(s: State) {
    forall id: nat :: Answers(s.out, id) + OpenQueries(s.reqs, id) <= if id < |s.issued| then 1 else 0
  }

  ghost predicate Inv(s: State) {
    TableOk(s.ports) && Balanced(s) && ReqsOk(s.reqs) && NoClash(s.reqs) && HistoryOk(s) && AnsweredOnce(s)
  }

  /** The allocator does not hand out the address of an object that is still there. A
      query's object is known by its address; the address may have been used before. */
  ghost predicate Unallocated(s: State, address: Address) {
    forall o | o in s.reqs && o.role == Query :: o.handle != address
  }

  lemma StartInv()
    ensures Inv(START)
  {
  }

  // ---- elementary changes keep it ----

  lemma AcquireInv(s: State, i: nat)
    requires Inv(s) && i < |s.ports|
    ensures Inv(Acquire(s, i))
  {
    BumpOk(s.ports, i);
    forall a ensures RefsAt(Bump(s.ports, i, 1), a) == RefsAt(s.ports, a) + (if s.ports[i].local == a then 1 else 0) {
      RefsAtBump(s.ports, i, 1, a);
    }
  }

  lemma InsertInv(s: State, p: MappedPort)
    requires Inv(s) && PortOk(p) && p.refs == 1 && Find(s.ports, p.local, true) == |s.ports|
    ensures Inv(Insert(s, p))
  {
    InsertOk(s.ports, p);
    assert ([p] + s.ports)[1..] == s.ports;
  }

  lemma ReleaseInv(s: State, i: nat)
    requires Inv(s) && i < |s.ports|
    ensures Inv(Release(s, i))
  {
    DropOk(s.ports, i);
    forall a ensures RefsAt(Drop(s.ports, i), a) == RefsAt(s.ports, a) - (if s.ports[i].local == a then 1 else 0) {
      RefsAtDrop(s.ports, i, a);
    }
  }

  lemma PostInv(s: State, m: SendMsg, ok: bool)
    requires Inv(s)
    ensures Inv(Post(s, m, ok))
  {
  }

  /** Notices other than answers are free. */
  lemma NotifyInv(s: State, n: Notice, ok: bool)
    requires Inv(s) && !n.Answer?
    ensures Inv(Notify(s, n, ok))
  {
    assert (s.out + [n])[..|s.out|] == s.out;
    assert forall id: nat :: Answers(s.out + [n], id) == Answers(s.out, id);
  }

  /** An answer uses up the room its query left. */
  lemma AnswerInv(s: State, n: Notice, ok: bool)
    requires Inv(s) && n.Answer? && AnswerOk(n, s.issued)
    requires Answers(s.out, n.id) + OpenQueries(s.reqs, n.id) == 0
    ensures Inv(Notify(s, n, ok))
  {
    assert (s.out + [n])[..|s.out|] == s.out;
  }

  lemma PushInv(s: State, o: MapRequest)
    requires Inv(s) && ReqOk(o) && QueryOk(o, s.issued)
    requires match o.role
      case Query => Unallocated(s, o.handle) && !o.complete && Answers(s.out, o.id) + OpenQueries(s.reqs, o.id) == 0
      case Accept => FindReq(s.reqs, o.handle, o.src, {Accept}) == |s.reqs|
      case Ack => NoneOpen(s.reqs, o.handle)
    ensures Inv(Push(s, o))
  {
    var rs := [o] + s.reqs;
    assert rs[1..] == s.reqs;
    forall i, j | 0 <= i < j < |rs| ensures !Clash(rs[i], rs[j]) {
      assert rs[j] == s.reqs[j - 1] && rs[j] in s.reqs;
      if i == 0 && o.role == Accept { assert !Wanted(s.reqs[j - 1], o.handle, o.src, {Accept}); }
    }
  }

  lemma SettleInv(s: State, k: nat)
    requires Inv(s) && k < |s.reqs|
    ensures Inv(Settle(s, k))
    ensures s.reqs[k].role == Query && !s.reqs[k].complete ==>
      var o := s.reqs[k];
      && o.id < |s.issued| && Answers(s.out, o.id) + OpenQueries(Settle(s, k).reqs, o.id) == 0
      && NoneOpen(Settle(s, k).reqs, o.handle)
  {
    var o := s.reqs[k];
    var rs := s.reqs[k := Touch(o)];
    assert ReqOk(o) && QueryOk(o, s.issued);
    forall id: nat ensures OpenQueries(rs, id) <= OpenQueries(s.reqs, id) { OpenQueriesTouch(s.reqs, k, id); }
    forall r | r in rs ensures QueryOk(r, s.issued) {
      if r != Touch(o) { assert r in s.reqs; }
    }
    if o.role == Query && !o.complete {
      QueryPresent(s.reqs, k);
      OpenQueriesTouch(s.reqs, k, o.id);
      OnlyOneOpen(s.reqs, k);
    }
  }

  lemma OnlyOneOpen(rs: seq<MapRequest>, k: nat)
    requires NoClash(rs) && k < |rs| && rs[k].role == Query && !rs[k].complete
    ensures NoneOpen(rs[k := Touch(rs[k])], rs[k].handle)
  {
    var us := rs[k := Touch(rs[k])];
    forall i | 0 <= i < |us| && us[i].role == Query && !us[i].complete ensures us[i].handle != rs[k].handle {
      assert !Clash(rs[if i < k then i else k], rs[if i < k then k else i]);
    }
  }

  lemma TickInv(s: State, failed: set<nat>)
    requires Inv(s)
    ensures Inv(Tick(s, failed))
  {
    TickAges(s.reqs);
    TickKeepsNoClash(s.reqs);
    forall id: nat ensures OpenQueries(TickReqs(s.reqs), id) <= OpenQueries(s.reqs, id) { OpenQueriesTick(s.reqs, id); }
    forall o | o in TickReqs(s.reqs) ensures QueryOk(o, s.issued) {
      assert AgedFrom(o, s.reqs);
      assert QueryOk(o.(timeout := o.timeout + 1), s.issued);
    }
  }

  lemma {:induction false} TickAllFrame(s: State, ticks: seq<set<nat>>)
    ensures TickAll(s, ticks) == s.(reqs := TickAll(s, ticks).reqs, pending := TickAll(s, ticks).pending)
    decreases |ticks|
  {
    if ticks == [] {
    } else {
      TickAllFrame(Tick(s, ticks[0]), ticks[1..]);
    }
  }

  lemma {:induction false} TickAllInv(s: State, ticks: seq<set<nat>>)
    requires Inv(s)
    ensures Inv(TickAll(s, ticks))
    ensures TickAll(s, ticks) == s.(reqs := TickAll(s, ticks).reqs, pending := TickAll(s, ticks).pending)
    ensures forall id: nat :: OpenQueries(TickAll(s, ticks).reqs, id) <= OpenQueries(s.reqs, id)
    decreases |ticks|
  {
    if ticks == [] {
    } else {
      TickInv(s, ticks[0]);
      TickAllInv(Tick(s, ticks[0]), ticks[1..]);
      forall id: nat ensures OpenQueries(TickReqs(s.reqs), id) <= OpenQueries(s.reqs, id) { OpenQueriesTick(s.reqs, id); }
    }
  }

  /** An object of `rs` at some other age. */
  ghost predicate Descends(o: MapRequest, rs: seq<MapRequest>) {
    exists o' :: o' in rs && o == o'.(timeout := o.timeout)
  }

  lemma {:induction false} TickAllDescends(s: State, ticks: seq<set<nat>>)
    requires ReqsOk(s.reqs)
    ensures forall o | o in TickAll(s, ticks).reqs :: Descends(o, s.reqs)
    decreases |ticks|
  {
    if ticks == [] {
      assert forall o | o in s.reqs :: o == o.(timeout := o.timeout);
    } else {
      var s1 := Tick(s, ticks[0]);
      TickAges(s.reqs);
      TickAllDescends(s1, ticks[1..]);
      forall o | o in TickAll(s, ticks).reqs ensures Descends(o, s.reqs) {
        assert Descends(o, s1.reqs);
        var o' :| o' in s1.reqs && o == o'.(timeout := o.timeout);
        assert AgedFrom(o', s.reqs);
        assert o == o'.(timeout := o'.timeout + 1).(timeout := o.timeout);
      }
    }
  }

  /** Ticks never bring back a conversation that is not tracked, nor an open query. */
  lemma TickAllNoNew(s: State, ticks: seq<set<nat>>, handle: nat, src: SockAddr, roles: set<Role>)
    requires ReqsOk(s.reqs) && FindReq(s.reqs, handle, src, roles) == |s.reqs|
    ensures FindReq(TickAll(s, ticks).reqs, handle, src, roles) == |TickAll(s, ticks).reqs|
  {
    var rs := TickAll(s, ticks).reqs;
    TickAllDescends(s, ticks);
    forall i | 0 <= i < |rs| ensures !Wanted(rs[i], handle, src, roles) {
      assert rs[i] in rs && Descends(rs[i], s.reqs);
      var j :| 0 <= j < |s.reqs| && rs[i] == s.reqs[j].(timeout := rs[i].timeout);
      assert !Wanted(s.reqs[j], handle, src, roles);
    }
  }

  lemma TickAllNoneOpen(s: State, ticks: seq<set<nat>>, handle: nat)
    requires ReqsOk(s.reqs) && NoneOpen(s.reqs, handle)
    ensures NoneOpen(TickAll(s, ticks).reqs, handle)
  {
    TickAllDescends(s, ticks);
    forall o | o in TickAll(s, ticks).reqs && o.role == Query && !o.complete ensures o.handle != handle {
      assert Descends(o, s.reqs);
    }
  }

  lemma HoldInv(s: State, slot: Slot)
    requires Inv(s) && !slot.NoSlot? && SlotIn(s, slot)
    requires slot.Fresh? ==> PortOk(slot.p) && slot.p.refs == 1 && Find(s.ports, slot.p.local, true) == |s.ports|
    ensures Inv(Hold(s, slot))
  {
    if slot.Listed? { AcquireInv(s, slot.i); } else { InsertInv(s, slot.p); }
  }

  // ---- every handler keeps it ----

  lemma AddMappingInv(s: State, client: nat, nl: NlHeader, local: SockAddr, env: PortEnv, reply: bool)
    requires Inv(s)
    ensures Inv(AddMapping(s, client, nl, local, env, reply).s)
  {
    var slot := SlotFor(s, local, client, env);
    NotifyInv(s, Failure(client, nl.seqno, CREATE_MAPPING_ERR), true);
    NotifyInv(s, Failure(client, nl.seqno, DUPLICATE_MAPPING_ERR), true);
    if !slot.NoSlot? {
      var n := MappingReply(nl, SlotPort(s, slot).local, SlotPort(s, slot).mapped);
      NotifyInv(s, n, true);
      HoldInv(Notify(s, n, true), slot);
    }
  }

  /** Recording one more query. */
  lemma IssueInv(s: State, q: Issue)
    requires Inv(s) && IssueOk(q)
    ensures Inv(s.(issued := s.issued + [q]))
    ensures Answers(s.out, |s.issued|) + OpenQueries(s.reqs, |s.issued|) == 0
  {
    var issued := s.issued + [q];
    forall r | r in s.reqs ensures QueryOk(r, issued) { assert QueryOk(r, s.issued); }
    forall n | n in s.out ensures AnswerOk(n, issued) { assert AnswerOk(n, s.issued); }
  }

  lemma AskInv(s: State, nl: NlHeader, p: MappedPort, remote: SockAddr, sm: SendMsg, handle: Address)
    requires Inv(s) && Unallocated(s, handle) && sm.data.handle == handle
    requires IssueOk(Issue(p.local, p.mapped, remote, sm.data)) && sm.dest == WithPort(remote, IWARP_PM_PORT)
    ensures Inv(Ask(s, nl, p, remote, sm, handle))
  {
    var q := Issue(p.local, p.mapped, remote, sm.data);
    IssueInv(s, q);
    PushInv(s.(issued := s.issued + [q]), NewRequest(nl, p.local, remote, 0, Query, Some(sm), handle, |s.issued|));
  }

  lemma QueryMappingInv(s: State, client: nat, nl: NlHeader, local: SockAddr, remote: SockAddr, env: QueryEnv)
    requires Inv(s) && Unallocated(s, env.handle)
    ensures Inv(QueryMapping(s, client, nl, local, remote, env).s)
  {
    var slot := SlotFor(s, local, client, env.port);
    if slot.NoSlot? || SlotPort(s, slot).wcard {
      NotifyInv(s, Failure(client, nl.seqno, CREATE_MAPPING_ERR), true);
    } else if !remote.Other? && env.buffers {
      var p := SlotPort(s, slot);
      var sm := SendMsg(WithPort(remote, IWARP_PM_PORT), RequestFor(local, p.mapped, remote, env));
      var s1 := Ask(s, nl, p, remote, sm, env.handle);
      if slot.Listed? { assert PortOk(s.ports[slot.i]); }
      AskInv(s, nl, p, remote, sm, env.handle);
      HoldInv(s1, slot);
      PostInv(Hold(s1, slot), sm, env.send);
    }
  }

  lemma RemoveMappingInv(s: State, client: nat, local: SockAddr)
    requires Inv(s)
    ensures Inv(RemoveMapping(s, client, local))
  {
    var i := FindSame(s.ports, local, true);
    if i < |s.ports| { ReleaseInv(s, i); }
  }

  lemma MapInfoInv(s: State, client: nat, nl: NlHeader, local: SockAddr, mapped: SockAddr, env: PortEnv)
    requires Inv(s)
    ensures Inv(MapInfo(s, client, nl, local, mapped, env).s)
  {
    NotifyInv(s, Failure(client, nl.seqno, CREATE_MAPPING_ERR), true);
    NotifyInv(s, Failure(client, nl.seqno, DUPLICATE_MAPPING_ERR), true);
    var r := ReopenPort(local, mapped, client, env.noPortMap, env.bind, env.alloc);
    if Find(s.ports, local, true) == |s.ports| && r.Some? {
      InsertInv(s, r.value);
    }
  }

  /** A request without a handle creates an object that is known by its address, and a
      live ACCEPT object already goes by that number, which its peer chose. */
  predicate Collides(s: State, m: WireMsg, env: WireEnv) {
    var i := Find(s.ports, ToSockAddr(m.family, m.ap), true);
    m.handle == 0 && i < |s.ports| && env.buffers &&
    var loc := ToSockAddr(m.family, AcceptedAt(s.ports[i], m.family, m.ap, env.junk));
    FindReq(TickAll(s, env.ticks).reqs, env.address, loc, {Accept}) < |TickAll(s, env.ticks).reqs|
  }

  /** A request keeps the invariant, in particular the one object for each conversation,
      if and only if it does not collide. */
  lemma WireRequestInv(s: State, m: WireMsg, from: SockAddr, env: WireEnv)
    requires Inv(s)
    ensures Inv(WireRequest(s, m, from, env).s) <==> !Collides(s, m, env)
  {
    var i := Find(s.ports, ToSockAddr(m.family, m.ap), true);
    if i == |s.ports| {
      PostInv(s, SendMsg(from, Form(MtRej, m)), env.send);
    } else {
      TickAllInv(s, env.ticks);
      NoZeroHandle(s.reqs, m, ToSockAddr(m.family, AcceptedAt(s.ports[i], m.family, m.ap, env.junk)));
      if Collides(s, m, env) { CollisionClashes(s, m, from, env); } else { NewAcceptInv(s, m, from, env); }
    }
  }

  lemma NoZeroHandle(rs: seq<MapRequest>, m: WireMsg, loc: SockAddr)
    requires ReqsOk(rs)
    ensures m.handle == 0 ==> FindReq(rs, m.handle, loc, {Accept}) == |rs|
  {
    var k := FindReq(rs, m.handle, loc, {Accept});
    assert k < |rs| ==> ReqOk(rs[k]);
  }

  lemma NewAcceptInv(s: State, m: WireMsg, from: SockAddr, env: WireEnv)
    requires Inv(s) && !Collides(s, m, env) && Find(s.ports, ToSockAddr(m.family, m.ap), true) < |s.ports|
    ensures Inv(WireRequest(s, m, from, env).s)
  {
    var p := s.ports[Find(s.ports, ToSockAddr(m.family, m.ap), true)];
    var ap := AcceptedAt(p, m.family, m.ap, env.junk);
    TickAllInv(s, env.ticks);
    if FindReq(s.reqs, m.handle, ToSockAddr(m.family, ap), {Accept}) == |s.reqs| && env.buffers {
      TickAllNoNew(s, env.ticks, m.handle, ToSockAddr(m.family, ap), {Accept});
      var o := AcceptFor(m, ap, from, env.address);
      PushInv(TickAll(s, env.ticks), o);
      var s1 := Push(TickAll(s, env.ticks), o);
      PostInv(s1, o.msg.value, env.send);
      NotifyInv(Post(s1, o.msg.value, env.send),
                RemoteInfo(p.owner, p.local, ToSockAddr(m.family, m.cp), p.mapped, ToSockAddr(m.family, m.mappedCp)),
                env.netlink);
    }
  }

  lemma CollisionClashes(s: State, m: WireMsg, from: SockAddr, env: WireEnv)
    requires Inv(s) && Collides(s, m, env)
    requires FindReq(s.reqs, m.handle, ToSockAddr(m.family,
      AcceptedAt(s.ports[Find(s.ports, ToSockAddr(m.family, m.ap), true)], m.family, m.ap, env.junk)), {Accept}) == |s.reqs|
    ensures !NoClash(WireRequest(s, m, from, env).s.reqs)
  {
    var p := s.ports[Find(s.ports, ToSockAddr(m.family, m.ap), true)];
    var o := AcceptFor(m, AcceptedAt(p, m.family, m.ap, env.junk), from, env.address);
    var rs := TickAll(s, env.ticks).reqs;
    var k := FindReq(rs, env.address, o.src, {Accept});
    assert Clash(o, rs[k]);
    assert WireRequest(s, m, from, env).s.reqs == [o] + rs;
    assert ([o] + rs)[0] == o && ([o] + rs)[k + 1] == rs[k];
  }

  /** The common middle of an accept and a reject: complete the query, then answer. */
  lemma SettleAndAnswerInv(s: State, k: nat, ticks: seq<set<nat>>, n: Notice, ok: bool)
    requires Inv(s) && k < |s.reqs| && s.reqs[k].role == Query && !s.reqs[k].complete
    requires n.Answer? && n.id == s.reqs[k].id && n.remote == s.reqs[k].remote && n.local == s.reqs[k].src
    ensures Inv(Notify(TickAll(Settle(s, k), ticks), n, ok))
  {
    assert QueryOk(s.reqs[k], s.issued);
    SettleInv(s, k);
    TickAllInv(Settle(s, k), ticks);
    AnswerInv(TickAll(Settle(s, k), ticks), n, ok);
  }

  /** The first accept of an open query: answer, then leave an ACK object behind. */
  lemma FirstAcceptInv(s: State, k: nat, ticks: seq<set<nat>>, n: Notice, address: Address)
    requires Inv(s) && k < |s.reqs| && s.reqs[k].role == Query && !s.reqs[k].complete
    requires n.Answer? && n.id == s.reqs[k].id && n.remote == s.reqs[k].remote && n.local == s.reqs[k].src
    ensures var o := s.reqs[k];
      Inv(Push(Notify(TickAll(Settle(s, k), ticks), n, true),
               NewRequest(NO_HEADER, o.src, o.remote, o.handle, Ack, None, address, o.id)))
  {
    var o := s.reqs[k];
    assert ReqOk(o);
    SettleAndAnswerInv(s, k, ticks, n, true);
    SettleInv(s, k);
    TickAllNoneOpen(Settle(s, k), ticks, o.handle);
    PushInv(Notify(TickAll(Settle(s, k), ticks), n, true),
            NewRequest(NO_HEADER, o.src, o.remote, o.handle, Ack, None, address, o.id));
  }

  lemma WireAcceptInv(s: State, m: WireMsg, from: SockAddr, env: WireEnv)
    requires Inv(s)
    ensures Inv(WireAccept(s, m, from, env).s)
  {
    var i := FindSame(s.ports, ToSockAddr(m.family, m.cp), true);
    if i < |s.ports| {
      var p := s.ports[i];
      var k := FindReq(s.reqs, m.handle, p.local, {Query, Ack});
      if k < |s.reqs| && !s.reqs[k].complete {
        var o := s.reqs[k];
        var ack := SendMsg(from, Form(MtAck, m));
        if o.role == Ack {
          SettleInv(s, k);
          TickAllInv(Settle(s, k), env.ticks);
          PostInv(TickAll(Settle(s, k), env.ticks), ack, env.send);
        } else {
          var n := Answer(o.id, o.nl, p.owner, p.local, o.remote, p.mapped, ToSockAddr(m.family, m.ap), 0);
          SettleAndAnswerInv(s, k, env.ticks, n, env.netlink);
          FirstAcceptInv(s, k, env.ticks, n, env.address);
          PostInv(Push(Notify(TickAll(Settle(s, k), env.ticks), n, true),
                       NewRequest(NO_HEADER, o.src, o.remote, o.handle, Ack, None, env.address, o.id)), ack, env.send);
        }
      }
    }
  }

  lemma WireRejectInv(s: State, m: WireMsg, env: WireEnv)
    requires Inv(s)
    ensures Inv(WireReject(s, m, env).s)
  {
    var i := FindSame(s.ports, ToSockAddr(m.family, m.cp), true);
    if i < |s.ports| {
      var p := s.ports[i];
      var k := FindReq(s.reqs, m.handle, p.local, {Query});
      if k < |s.reqs| && !s.reqs[k].complete {
        var o := s.reqs[k];
        SettleAndAnswerInv(s, k, env.ticks,
          Answer(o.id, o.nl, p.owner, p.local, o.remote, p.mapped, o.remote, REMOTE_QUERY_REJECT), env.netlink);
      }
    }
  }

  lemma WireAckInv(s: State, m: WireMsg)
    requires Inv(s)
    ensures Inv(WireAck(s, m))
  {
    var k := FindReq(s.reqs, m.handle, ToSockAddr(m.family, m.ap), {Accept});
    if k < |s.reqs| { SettleInv(s, k); }
  }
}
