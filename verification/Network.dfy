/** Several daemons on a network that may lose, duplicate and reorder messages, over
    whole runs: the daemons agree on the mapping a client is told, no query is answered
    twice, and every daemon keeps its invariant in every reachable state. */
module Network {
  import opened Addresses
  import opened Options
  import opened PortTable
  import opened Requests
  import opened Daemon
  import C = Conversations

  /** `from` is the sending host. */
  datatype Packet = Packet(from: nat, src: SockAddr, dst: SockAddr, msg: WireMsg)

  /** `wire` holds every packet ever sent. A packet may be delivered any number of times,
      in any order, or never. */
  datatype Net = Net(hosts: map<nat, State>, wire: set<Packet>)

  datatype Event =
    | Add(h: nat, client: nat, nl: NlHeader, local: SockAddr, port: PortEnv, reply: bool)
    | Ask(h: nat, client: nat, nl: NlHeader, local: SockAddr, remote: SockAddr, query: QueryEnv)
    | Remove(h: nat, client: nat, local: SockAddr)
    | Report(h: nat, client: nat, nl: NlHeader, local: SockAddr, mapped: SockAddr, port: PortEnv)
    | Timer(h: nat, failed: set<nat>)
    | Send(h: nat, sent: set<Packet>)
    | Deliver(h: nat, packet: Packet, env: WireEnv)
    | Restart(h: nat)

  /** The daemon process starts over; what was asked and answered before is history. */
  function Restarted(s: State): State {
    START.(out := s.out, issued := s.issued)
  }

  function HostNext(s: State, e: Event): State {
    match e
    case Add(_, client, nl, local, port, reply) => AddMapping(s, client, nl, local, port, reply).s
    case Ask(_, client, nl, local, remote, query) => QueryMapping(s, client, nl, local, remote, query).s
    case Remove(_, client, local) => RemoveMapping(s, client, local)
    case Report(_, client, nl, local, mapped, port) => MapInfo(s, client, nl, local, mapped, port).s
    case Timer(_, failed) => Tick(s, failed)
    case Send(_, _) => s.(pending := [])
    case Deliver(_, packet, env) => Dispatch(s, packet.msg, packet.src, env).s
    case Restart(_) => Restarted(s)
  }

  /** When an event can happen. `route` says which host an address leads to from a given
      host: a packet reaches the host that its destination leads to from its sender, and
      its source address leads back. A new tracking object is not where an old one still
      is; where an old one was it may be. */
  ghost predicate Enabled(route: (nat, SockAddr) -> nat, n: Net, e: Event) {
    && e.h in n.hosts
    && match e
       case Ask(h, _, _, _, _, query) => Unallocated(n.hosts[h], query.handle)
       case Send(h, sent) => forall p | p in sent :: MayLeave(route, n.hosts[h], h, p)
       case Deliver(h, packet, _) => packet in n.wire && h == route(packet.from, packet.dst)
       case _ => true
  }

  predicate MayLeave(route: (nat, SockAddr) -> nat, s: State, h: nat, p: Packet) {
    p.from == h && SendMsg(p.dst, p.msg) in s.pending && Returns(route, p)
  }

  predicate Returns(route: (nat, SockAddr) -> nat, p: Packet) {
    route(route(p.from, p.dst), p.src) == p.from
  }

  function Next(n: Net, e: Event): Net
    requires e.h in n.hosts
  {
    Net(n.hosts[e.h := HostNext(n.hosts[e.h], e)], n.wire + if e.Send? then e.sent else {})
  }

  ghost predicate Initial(n: Net) {
    n.wire == {} && forall h | h in n.hosts :: n.hosts[h] == START
  }

  ghost predicate IsRun(route: (nat, SockAddr) -> nat, run: seq<Net>, ev: seq<Event>) {
    && |run| == |ev| + 1
    && Initial(run[0])
    && forall i | 0 <= i < |ev| :: StepAt(route, run, ev, i)
  }

  ghost predicate StepAt(route: (nat, SockAddr) -> nat, run: seq<Net>, ev: seq<Event>, i: nat)
    requires |run| == |ev| + 1 && i < |ev|
  {
    Enabled(route, run[i], ev[i]) && run[i + 1] == Next(run[i], ev[i])
  }

  // ---- messages a daemon may still send ----

  ghost predicate Carries(s: State, m: SendMsg) {
    m in s.pending || exists o :: o in s.reqs && o.msg == Some(m)
  }

  lemma TickCarries(s: State, failed: set<nat>, m: SendMsg)
    requires Inv(s) && Carries(Tick(s, failed), m)
    ensures Carries(s, m)
  {
    TickSendsFrom(s.reqs, failed, 0, s.pending);
    TickAges(s.reqs);
    if m !in Tick(s, failed).pending {
      var o :| o in TickReqs(s.reqs) && o.msg == Some(m);
      assert AgedFrom(o, s.reqs);
      var o' := o.(timeout := o.timeout + 1);
      assert o' in s.reqs && o'.msg == Some(m);
    }
  }

  lemma {:induction false} TickAllCarries(s: State, ticks: seq<set<nat>>, m: SendMsg)
    requires Inv(s) && Carries(TickAll(s, ticks), m)
    ensures Carries(s, m)
    decreases |ticks|
  {
    if ticks == [] {
    } else {
      TickInv(s, ticks[0]);
      TickAllCarries(Tick(s, ticks[0]), ticks[1..], m);
      TickCarries(s, ticks[0], m);
    }
  }

  lemma SettleCarries(s: State, k: nat, m: SendMsg)
    requires k < |s.reqs| && Carries(Settle(s, k), m)
    ensures Carries(s, m)
  {
    if m !in s.pending {
      var o :| o in Settle(s, k).reqs && o.msg == Some(m);
      var i :| 0 <= i < |s.reqs| && Settle(s, k).reqs[i] == o;
      assert s.reqs[i] in s.reqs && s.reqs[i].msg == Some(m);
    }
  }

  lemma PushCarries(s: State, o: MapRequest, m: SendMsg)
    requires Carries(Push(s, o), m)
    ensures Carries(s, m) || o.msg == Some(m)
  {
    if m !in s.pending {
      var r :| r in Push(s, o).reqs && r.msg == Some(m);
      assert r == o || r in s.reqs;
    }
  }

  /** A daemon sends on only what it already carried, unless it is asked something:
      a query creates its request, a peer's message creates the reply to it. */
  lemma NewTraffic(s: State, e: Event, m: SendMsg)
    requires Inv(s) && Carries(HostNext(s, e), m) && !Carries(s, m)
    ensures e.Ask? || e.Deliver?
    ensures e.Ask? ==>
      var s' := HostNext(s, e);
      && m.data.mt == MtReq && |s'.issued| == |s.issued| + 1
      && m == SendMsg(WithPort(s'.issued[|s.issued|].remote, IWARP_PM_PORT), s'.issued[|s.issued|].msg)
    ensures e.Deliver? ==> m.dest == e.packet.src && m.data.mt != MtReq
    ensures e.Deliver? && m.data.mt == MtAcc ==> AcceptsRequest(s, e.packet.msg, m.data)
  {
    match e {
      case Add(_, client, nl, local, port, reply) =>
      case Ask(_, client, nl, local, remote, query) => AskTraffic(s, client, nl, local, remote, query, m);
      case Remove(_, client, local) =>
      case Report(_, client, nl, local, mapped, port) =>
      case Timer(_, failed) => TickCarries(s, failed, m);
      case Send(_, _) =>
      case Deliver(_, packet, env) => DispatchTraffic(s, packet.msg, packet.src, env, m);
      case Restart(_) =>
    }
  }

  /** `acc` accepts request `m` with the mapping of a port listed in `s`. */
  ghost predicate AcceptsRequest(s: State, m: WireMsg, acc: WireMsg) {
    && m.mt == MtReq && acc.handle == m.handle && acc.family == m.family && acc.cp == m.cp
    && MappingListed(s, ToSockAddr(m.family, m.ap), acc.family, m.ap, acc.ap)
  }

  /** Some listed port matches `a`, and `addr` is where it maps the requested endpoint. */
  ghost predicate MappingListed(s: State, a: SockAddr, f: Family, ap: Endpoint, addr: Endpoint) {
    exists i, junk :: 0 <= i < |s.ports| && Hit(s.ports[i], a, true) && addr == AcceptedAt(s.ports[i], f, ap, junk)
  }

  lemma AskTraffic(s: State, client: nat, nl: NlHeader, local: SockAddr, remote: SockAddr, env: QueryEnv, m: SendMsg)
    requires var s' := QueryMapping(s, client, nl, local, remote, env).s; Carries(s', m) && !Carries(s, m)
    ensures var s' := QueryMapping(s, client, nl, local, remote, env).s;
      && m.data.mt == MtReq && |s'.issued| == |s.issued| + 1
      && m == SendMsg(WithPort(s'.issued[|s.issued|].remote, IWARP_PM_PORT), s'.issued[|s.issued|].msg)
  {
    var s' := QueryMapping(s, client, nl, local, remote, env).s;
    if s'.reqs != s.reqs {
      var o := s'.reqs[0];
      if m !in s'.pending {
        var r :| r in s'.reqs && r.msg == Some(m);
        assert r == o || r in s.reqs;
      }
      assert o.msg == Some(m);
    }
  }

  lemma DispatchTraffic(s: State, m: WireMsg, from: SockAddr, env: WireEnv, sm: SendMsg)
    requires Inv(s) && Carries(Dispatch(s, m, from, env).s, sm) && !Carries(s, sm)
    ensures sm.dest == from && sm.data.mt != MtReq
    ensures sm.data.mt == MtAcc ==> AcceptsRequest(s, m, sm.data)
  {
    match m.mt {
      case MtReq => RequestTraffic(s, m, from, env, sm);
      case MtAcc => AcceptTraffic(s, m, from, env, sm);
      case MtRej =>
        var k := C.Found(s, m);
        if k < |s.reqs| && !s.reqs[k].complete {
          SettleInv(s, k);
          TickAllCarries(Settle(s, k), env.ticks, sm);
          SettleCarries(s, k, sm);
        }
      case MtAck =>
        var k := FindReq(s.reqs, m.handle, ToSockAddr(m.family, m.ap), {Accept});
        if k < |s.reqs| && Find(s.ports, ToSockAddr(m.family, m.ap), false) < |s.ports| { SettleCarries(s, k, sm); }
    }
  }

  lemma RequestTraffic(s: State, m: WireMsg, from: SockAddr, env: WireEnv, sm: SendMsg)
    requires Inv(s) && m.mt == MtReq && Carries(WireRequest(s, m, from, env).s, sm) && !Carries(s, sm)
    ensures sm.dest == from && sm.data.mt != MtReq
    ensures sm.data.mt == MtAcc ==> AcceptsRequest(s, m, sm.data)
  {
    var i := Find(s.ports, ToSockAddr(m.family, m.ap), true);
    if i < |s.ports| {
      var s1 := TickAll(s, env.ticks);
      if Carries(s1, sm) { TickAllCarries(s, env.ticks, sm); }
      var o := AcceptFor(m, AcceptedAt(s.ports[i], m.family, m.ap, env.junk), from, env.address);
      if Carries(Push(s1, o), sm) { PushCarries(s1, o, sm); }
      assert o.msg == Some(sm);
    }
  }

  lemma AcceptTraffic(s: State, m: WireMsg, from: SockAddr, env: WireEnv, sm: SendMsg)
    requires Inv(s) && m.mt == MtAcc && Carries(WireAccept(s, m, from, env).s, sm) && !Carries(s, sm)
    ensures sm == SendMsg(from, Form(MtAck, m))
  {
    var k := C.Found(s, m);
    if k < |s.reqs| && !s.reqs[k].complete {
      var o := s.reqs[k];
      SettleInv(s, k);
      var s1 := TickAll(Settle(s, k), env.ticks);
      if Carries(s1, sm) {
        TickAllCarries(Settle(s, k), env.ticks, sm);
        SettleCarries(s, k, sm);
      }
      var r := NewRequest(NO_HEADER, o.src, o.remote, o.handle, Ack, None, env.address, o.id);
      if Carries(Push(s1, r), sm) { PushCarries(s1, r, sm); }
    }
  }

  // ---- every reachable state ----

  /** Where the mapping told for query `id` of host `h` comes from: at some state up to
      `k`, with the query asked, the daemon that the remote address leads to had a port
      listed that matches it and maps it to `addr`. */
  ghost predicate Vouched(route: (nat, SockAddr) -> nat, run: seq<Net>, k: nat, h: nat, id: nat, addr: Endpoint) {
    exists j :: 0 <= j <= k < |run| && VouchedAt(route, run[j], h, id, addr)
  }

  ghost predicate VouchedAt(route: (nat, SockAddr) -> nat, n: Net, h: nat, id: nat, addr: Endpoint) {
    && h in n.hosts && id < |n.hosts[h].issued|
    && var q := n.hosts[h].issued[id];
       var b := route(h, WithPort(q.remote, IWARP_PM_PORT));
       b in n.hosts && MappingListed(n.hosts[b], q.remote, q.msg.family, q.msg.ap, addr)
  }

  /** A request is the one of query `id`. */
  predicate RequestOf(s: State, id: nat, dst: SockAddr, m: WireMsg) {
    id < |s.issued| && m == s.issued[id].msg && dst == WithPort(s.issued[id].remote, IWARP_PM_PORT)
  }

  /** An accept answers query `id` with a vouched mapping. */
  ghost predicate AcceptOf(route: (nat, SockAddr) -> nat, run: seq<Net>, k: nat, h: nat, id: nat, m: WireMsg)
    requires k < |run| && h in run[k].hosts
  {
    id < |run[k].hosts[h].issued| && C.Replies(m, run[k].hosts[h].issued[id]) && Vouched(route, run, k, h, id, m.ap)
  }

  /** A message from `sender`: a request is one of the sender's own queries, an accept
      carries a vouched mapping for a query of its addressee. */
  ghost predicate Genuine(route: (nat, SockAddr) -> nat, run: seq<Net>, k: nat, sender: nat, dst: SockAddr, m: WireMsg)
    requires k < |run|
  {
    var hosts := run[k].hosts;
    && (m.mt == MtReq ==> sender in hosts && exists id :: RequestOf(hosts[sender], id, dst, m))
    && (m.mt == MtAcc ==> route(sender, dst) in hosts && exists id :: AcceptOf(route, run, k, route(sender, dst), id, m))
  }

  /** A reply to `q` is matched with the object of `q'`. */
  predicate Reaches(q: Issue, q': Issue) {
    q.msg.handle == q'.msg.handle && ToSockAddr(q.msg.family, q.msg.cp) == q'.local
  }

  /** The mapping in answer `n` is one vouched for query `id`, whose replies reach the
      query that was answered. */
  ghost predicate ToldFrom(route: (nat, SockAddr) -> nat, run: seq<Net>, k: nat, h: nat, n: Notice, id: nat, addr: Endpoint)
    requires k < |run| && h in run[k].hosts && n.Answer?
  {
    var issued := run[k].hosts[h].issued;
    && n.id < |issued| && id < |issued| && Reaches(issued[id], issued[n.id])
    && n.mappedRemote == ToSockAddr(issued[id].msg.family, addr)
    && Vouched(route, run, k, h, id, addr)
  }

  ghost predicate AnswerVouched(route: (nat, SockAddr) -> nat, run: seq<Net>, k: nat, h: nat, n: Notice)
    requires k < |run| && h in run[k].hosts
  {
    n.Answer? && n.err == 0 ==> exists id, addr :: ToldFrom(route, run, k, h, n, id, addr)
  }

  ghost predicate HostOk(route: (nat, SockAddr) -> nat, run: seq<Net>, k: nat, h: nat)
    requires k < |run| && h in run[k].hosts
  {
    var s := run[k].hosts[h];
    && Inv(s)
    && (forall m | Carries(s, m) :: Genuine(route, run, k, h, m.dest, m.data))
    && (forall n | n in s.out :: AnswerVouched(route, run, k, h, n))
  }

  ghost predicate NetOk(route: (nat, SockAddr) -> nat, run: seq<Net>, k: nat)
    requires k < |run|
  {
    && (forall h | h in run[k].hosts :: HostOk(route, run, k, h))
    && (forall p | p in run[k].wire :: Genuine(route, run, k, p.from, p.dst, p.msg) && Returns(route, p))
  }

  ghost predicate Grows(before: seq<Issue>, after: seq<Issue>) { before <= after }

  lemma IssuedGrows(s: State, e: Event)
    ensures Grows(s.issued, HostNext(s, e).issued)
    ensures !e.Ask? ==> HostNext(s, e).issued == s.issued
  {
    match e {
      case Deliver(_, packet, env) => DispatchFrame(s, packet.msg, packet.src, env);
      case Ask(_, client, nl, local, remote, query) => AskIssues(s, client, nl, local, remote, query);
      case Add(_, client, nl, local, port, reply) => AddIssues(s, client, nl, local, port, reply);
      case Report(_, client, nl, local, mapped, port) => ReportIssues(s, client, nl, local, mapped, port);
      case _ =>
    }
  }

  lemma AddIssues(s: State, client: nat, nl: NlHeader, local: SockAddr, port: PortEnv, reply: bool)
    ensures AddMapping(s, client, nl, local, port, reply).s.issued == s.issued
  {
  }

  lemma ReportIssues(s: State, client: nat, nl: NlHeader, local: SockAddr, mapped: SockAddr, port: PortEnv)
    ensures MapInfo(s, client, nl, local, mapped, port).s.issued == s.issued
  {
  }

  lemma AskIssues(s: State, client: nat, nl: NlHeader, local: SockAddr, remote: SockAddr, env: QueryEnv)
    ensures Grows(s.issued, QueryMapping(s, client, nl, local, remote, env).s.issued)
  {
  }

  /** A peer's message touches neither the port table nor the queries asked. */
  lemma DispatchFrame(s: State, m: WireMsg, from: SockAddr, env: WireEnv)
    ensures var s' := Dispatch(s, m, from, env).s; s'.issued == s.issued && s'.ports == s.ports
  {
    match m.mt {
      case MtReq => RequestFrame(s, m, from, env);
      case MtAcc => AcceptFrame(s, m, from, env);
      case MtRej =>
        var k := C.Found(s, m);
        if k < |s.reqs| { TickAllFrame(Settle(s, k), env.ticks); }
      case MtAck =>
    }
  }

  lemma RequestFrame(s: State, m: WireMsg, from: SockAddr, env: WireEnv)
    ensures var s' := WireRequest(s, m, from, env).s; s'.issued == s.issued && s'.ports == s.ports
  {
    TickAllFrame(s, env.ticks);
  }

  lemma AcceptFrame(s: State, m: WireMsg, from: SockAddr, env: WireEnv)
    ensures var s' := WireAccept(s, m, from, env).s; s'.issued == s.issued && s'.ports == s.ports
  {
    var i := FindSame(s.ports, ToSockAddr(m.family, m.cp), true);
    if i < |s.ports| {
      var k := FindReq(s.reqs, m.handle, s.ports[i].local, {Query, Ack});
      if k < |s.reqs| { TickAllFrame(Settle(s, k), env.ticks); }
    }
  }

  lemma GenuineStays(route: (nat, SockAddr) -> nat, run: seq<Net>, ev: seq<Event>, k: nat, sender: nat, dst: SockAddr,
                     m: WireMsg)
    requires IsRun(route, run, ev) && k < |ev| && Genuine(route, run, k, sender, dst, m)
    ensures Genuine(route, run, k + 1, sender, dst, m)
  {
    if m.mt == MtReq {
      OneStepIssued(route, run, ev, k, sender);
      var id :| RequestOf(run[k].hosts[sender], id, dst, m);
      assert RequestOf(run[k + 1].hosts[sender], id, dst, m);
    } else if m.mt == MtAcc {
      var h := route(sender, dst);
      OneStepIssued(route, run, ev, k, h);
      var id :| AcceptOf(route, run, k, h, id, m);
      VouchedStays(route, run, k, h, id, m.ap);
      assert AcceptOf(route, run, k + 1, h, id, m);
    }
  }

  lemma VouchedStays(route: (nat, SockAddr) -> nat, run: seq<Net>, k: nat, h: nat, id: nat, addr: Endpoint)
    requires k + 1 < |run| && Vouched(route, run, k, h, id, addr)
    ensures Vouched(route, run, k + 1, h, id, addr)
  {
    var j :| 0 <= j <= k && VouchedAt(route, run[j], h, id, addr);
  }

  lemma AnswerStays(route: (nat, SockAddr) -> nat, run: seq<Net>, ev: seq<Event>, k: nat, h: nat, n: Notice)
    requires IsRun(route, run, ev) && k < |ev| && h in run[k].hosts && h in run[k + 1].hosts
    requires AnswerVouched(route, run, k, h, n)
    ensures AnswerVouched(route, run, k + 1, h, n)
  {
    OneStepIssued(route, run, ev, k, h);
    if n.Answer? && n.err == 0 {
      var id, addr :| ToldFrom(route, run, k, h, n, id, addr);
      VouchedStays(route, run, k, h, id, addr);
      assert ToldFrom(route, run, k + 1, h, n, id, addr);
    }
  }

  /** Every event keeps the invariant, a request that collides excepted. */
  lemma HostNextInv(s: State, e: Event)
    requires Inv(s)
    requires e.Ask? ==> Unallocated(s, e.query.handle)
    ensures Inv(HostNext(s, e)) <==> !(e.Deliver? && e.packet.msg.mt == MtReq && Collides(s, e.packet.msg, e.env))
  {
    match e {
      case Add(_, client, nl, local, port, reply) => AddMappingInv(s, client, nl, local, port, reply);
      case Ask(_, client, nl, local, remote, query) => QueryMappingInv(s, client, nl, local, remote, query);
      case Remove(_, client, local) => RemoveMappingInv(s, client, local);
      case Report(_, client, nl, local, mapped, port) => MapInfoInv(s, client, nl, local, mapped, port);
      case Timer(_, failed) => TickInv(s, failed);
      case Send(_, _) =>
      case Deliver(_, packet, env) => DispatchInv(s, packet.msg, packet.src, env);
      case Restart(_) =>
    }
  }

  lemma DispatchInv(s: State, m: WireMsg, from: SockAddr, env: WireEnv)
    requires Inv(s)
    ensures Inv(Dispatch(s, m, from, env).s) <==> !(m.mt == MtReq && Collides(s, m, env))
  {
    match m.mt {
      case MtReq => WireRequestInv(s, m, from, env);
      case MtAcc => WireAcceptInv(s, m, from, env);
      case MtRej => WireRejectInv(s, m, env);
      case MtAck => WireAckInv(s, m);
    }
  }

  /** New notices: only a delivered accept reports success to a querying client. */
  lemma NewNotices(s: State, e: Event, n: Notice)
    requires n in HostNext(s, e).out && n !in s.out && n.Answer? && n.err == 0
    ensures e.Deliver? && e.packet.msg.mt == MtAcc && C.Open(s, e.packet.msg) && n == C.AnswerFor(s, e.packet.msg)
  {
    match e {
      case Add(_, client, nl, local, port, reply) => ClientNotices(s, e, n);
      case Ask(_, client, nl, local, remote, query) => ClientNotices(s, e, n);
      case Remove(_, client, local) =>
      case Report(_, client, nl, local, mapped, port) => ClientNotices(s, e, n);
      case Timer(_, failed) =>
      case Send(_, _) =>
      case Deliver(_, packet, env) => DispatchNotices(s, packet.msg, packet.src, env, n);
      case Restart(_) =>
    }
  }

  /** Client requests are not answered with connection information. */
  lemma ClientNotices(s: State, e: Event, n: Notice)
    requires (e.Add? || e.Ask? || e.Report?) && n.Answer?
    ensures n in HostNext(s, e).out ==> n in s.out
  {
  }

  lemma DispatchNotices(s: State, m: WireMsg, from: SockAddr, env: WireEnv, n: Notice)
    requires n in Dispatch(s, m, from, env).s.out && n !in s.out && n.Answer? && n.err == 0
    ensures m.mt == MtAcc && C.Open(s, m) && n == C.AnswerFor(s, m)
  {
    match m.mt {
      case MtReq => TickAllFrame(s, env.ticks);
      case MtAcc => C.DispatchOut(s, m, from, env);
      case MtRej => C.DispatchOut(s, m, from, env);
      case MtAck =>
    }
  }

  lemma Delivered(route: (nat, SockAddr) -> nat, run: seq<Net>, ev: seq<Event>, k: nat)
    requires IsRun(route, run, ev) && k < |ev| && ev[k].Deliver?
    ensures ev[k].packet in run[k].wire && ev[k].h == route(ev[k].packet.from, ev[k].packet.dst)
  {
    assert StepAt(route, run, ev, k);
  }

  /** A request that reached a host is one of its sender's queries. */
  lemma DeliveredRequest(route: (nat, SockAddr) -> nat, run: seq<Net>, k: nat, p: Packet) returns (id: nat)
    requires k < |run| && NetOk(route, run, k) && p in run[k].wire && p.msg.mt == MtReq
    ensures p.from in run[k].hosts && RequestOf(run[k].hosts[p.from], id, p.dst, p.msg)
    ensures IssueOk(run[k].hosts[p.from].issued[id])
    ensures ToSockAddr(p.msg.family, p.msg.ap) == run[k].hosts[p.from].issued[id].remote
  {
    assert Genuine(route, run, k, p.from, p.dst, p.msg);
    id :| RequestOf(run[k].hosts[p.from], id, p.dst, p.msg);
    assert HostOk(route, run, k, p.from);
    assert IssueOk(run[k].hosts[p.from].issued[id]);
  }

  /** What a daemon newly sends is genuine. */
  lemma NewIsGenuine(route: (nat, SockAddr) -> nat, run: seq<Net>, ev: seq<Event>, k: nat, m: SendMsg)
    requires IsRun(route, run, ev) && k < |ev| && NetOk(route, run, k)
    requires ev[k].h in run[k].hosts && ev[k].h in run[k + 1].hosts
    requires Carries(run[k + 1].hosts[ev[k].h], m) && !Carries(run[k].hosts[ev[k].h], m)
    ensures Genuine(route, run, k + 1, ev[k].h, m.dest, m.data)
  {
    var e := ev[k];
    assert StepAt(route, run, ev, k);
    var s := run[k].hosts[e.h];
    assert HostOk(route, run, k, e.h);
    NewTraffic(s, e, m);
    if e.Ask? {
      assert RequestOf(run[k + 1].hosts[e.h], |s.issued|, m.dest, m.data);
    } else if m.data.mt == MtAcc {
      NewAcceptGenuine(route, run, ev, k, m);
    }
  }

  lemma NewAcceptGenuine(route: (nat, SockAddr) -> nat, run: seq<Net>, ev: seq<Event>, k: nat, m: SendMsg)
    requires IsRun(route, run, ev) && k < |ev| && NetOk(route, run, k) && ev[k].Deliver? && ev[k].h in run[k].hosts
    requires m.data.mt == MtAcc && m.dest == ev[k].packet.src
    requires AcceptsRequest(run[k].hosts[ev[k].h], ev[k].packet.msg, m.data)
    ensures Genuine(route, run, k + 1, ev[k].h, m.dest, m.data)
  {
    var e := ev[k];
    Delivered(route, run, ev, k);
    var p := e.packet;
    var id := DeliveredRequest(route, run, k, p);
    assert Returns(route, p);
    assert VouchedAt(route, run[k], p.from, id, m.data.ap);
    assert Vouched(route, run, k + 1, p.from, id, m.data.ap);
    OneStepIssued(route, run, ev, k, p.from);
    assert AcceptOf(route, run, k + 1, p.from, id, m.data);
  }

  lemma HostOkNext(route: (nat, SockAddr) -> nat, run: seq<Net>, ev: seq<Event>, k: nat, h: nat)
    requires IsRun(route, run, ev) && k < |ev| && NetOk(route, run, k) && h in run[k + 1].hosts
    ensures HostOk(route, run, k + 1, h)
  {
    var e := ev[k];
    assert StepAt(route, run, ev, k);
    assert h in run[k].hosts && HostOk(route, run, k, h);
    var s, s' := run[k].hosts[h], run[k + 1].hosts[h];
    assert Inv(s') by {
      if h == e.h {
        if e.Deliver? && e.packet.msg.mt == MtReq { var _ := DeliveredRequest(route, run, k, e.packet); }
        HostNextInv(s, e);
      }
    }
    forall m | Carries(s', m) ensures Genuine(route, run, k + 1, h, m.dest, m.data) {
      if Carries(s, m) {
        GenuineStays(route, run, ev, k, h, m.dest, m.data);
      } else {
        NewIsGenuine(route, run, ev, k, m);
      }
    }
    forall n | n in s'.out ensures AnswerVouched(route, run, k + 1, h, n) {
      if n in s.out {
        AnswerStays(route, run, ev, k, h, n);
      } else if n.Answer? && n.err == 0 {
        NewNotices(s, e, n);
        NewAnswerVouched(route, run, ev, k, n);
      }
    }
  }

  /** The query that an accept is matched with has its handle and the address it names. */
  lemma MatchedQuery(s: State, m: WireMsg)
    requires Inv(s) && m.mt == MtAcc && C.Open(s, m)
    ensures var n := C.AnswerFor(s, m);
      && n.id < |s.issued| && n.mappedRemote == ToSockAddr(m.family, m.ap)
      && s.issued[n.id].msg.handle == m.handle && s.issued[n.id].local == ToSockAddr(m.family, m.cp)
  {
    assert QueryOk(s.reqs[C.Found(s, m)], s.issued);
  }

  lemma NewAnswerVouched(route: (nat, SockAddr) -> nat, run: seq<Net>, ev: seq<Event>, k: nat, n: Notice)
    requires IsRun(route, run, ev) && k < |ev| && NetOk(route, run, k)
    requires ev[k].h in run[k].hosts && ev[k].h in run[k + 1].hosts
    requires ev[k].Deliver? && ev[k].packet.msg.mt == MtAcc && C.Open(run[k].hosts[ev[k].h], ev[k].packet.msg)
    requires n == C.AnswerFor(run[k].hosts[ev[k].h], ev[k].packet.msg)
    ensures AnswerVouched(route, run, k + 1, ev[k].h, n)
  {
    var e := ev[k];
    Delivered(route, run, ev, k);
    var p := e.packet;
    var s := run[k].hosts[e.h];
    assert HostOk(route, run, k, e.h);
    MatchedQuery(s, p.msg);
    assert Genuine(route, run, k, p.from, p.dst, p.msg);
    var id :| AcceptOf(route, run, k, e.h, id, p.msg);
    OneStepIssued(route, run, ev, k, e.h);
    VouchedStays(route, run, k, e.h, id, p.msg.ap);
    assert ToldFrom(route, run, k + 1, e.h, n, id, p.msg.ap);
  }

  lemma NetOkNext(route: (nat, SockAddr) -> nat, run: seq<Net>, ev: seq<Event>, k: nat)
    requires IsRun(route, run, ev) && k < |ev| && NetOk(route, run, k)
    ensures NetOk(route, run, k + 1)
  {
    var e := ev[k];
    assert StepAt(route, run, ev, k);
    var k' := k + 1;
    forall h | h in run[k'].hosts ensures HostOk(route, run, k', h) { HostOkNext(route, run, ev, k, h); }
    forall p | p in run[k'].wire ensures Genuine(route, run, k', p.from, p.dst, p.msg) && Returns(route, p) {
      if p !in run[k].wire {
        assert HostOk(route, run, k, e.h) && MayLeave(route, run[k].hosts[e.h], e.h, p);
        assert Carries(run[k].hosts[e.h], SendMsg(p.dst, p.msg));
      }
      GenuineStays(route, run, ev, k, p.from, p.dst, p.msg);
    }
  }

  lemma {:induction false} NetAlwaysOk(route: (nat, SockAddr) -> nat, run: seq<Net>, ev: seq<Event>, k: nat)
    requires IsRun(route, run, ev) && k < |run|
    ensures NetOk(route, run, k)
  {
    if k == 0 {
      StartInv();
      forall h | h in run[0].hosts ensures HostOk(route, run, 0, h) {
        assert forall m :: !Carries(START, m);
      }
    } else {
      NetAlwaysOk(route, run, ev, k - 1);
      NetOkNext(route, run, ev, k - 1);
    }
  }

  // ---- main results ----

  /** Every daemon keeps its invariant in every reachable state: its table is free of
      conflicts, its references balance, its tracking objects are well formed, and it
      never tracks one conversation twice in the same role. */
  lemma AlwaysInv(route: (nat, SockAddr) -> nat, run: seq<Net>, ev: seq<Event>, k: nat, h: nat)
    requires IsRun(route, run, ev) && k < |run| && h in run[k].hosts
    ensures Inv(run[k].hosts[h])
  {
    NetAlwaysOk(route, run, ev, k);
    assert HostOk(route, run, k, h);
  }

  /** No query is answered twice, whatever accepts, rejects, duplicates and ticks do, and
      whichever addresses are used again. */
  lemma AtMostOneAnswer(route: (nat, SockAddr) -> nat, run: seq<Net>, ev: seq<Event>, k: nat, h: nat, id: nat)
    requires IsRun(route, run, ev) && k < |run| && h in run[k].hosts
    ensures Answers(run[k].hosts[h].out, id) <= 1
  {
    AlwaysInv(route, run, ev, k, h);
  }

  /** Port `p` listed for the address `remote` accounts for the mapping `told`: for a
      wildcard port it is the remote IP address with the port's mapped port number;
      otherwise it is the port's mapping (of the remote's family), and the port is the
      remote address itself unless that is a wildcard. */
  predicate Accounts(p: MappedPort, remote: SockAddr, told: SockAddr) {
    && PortOf(p.local) == PortOf(remote)
    && (p.wcard ==> told == WithPort(remote, PortOf(p.mapped)))
    && (!p.wcard && SameFamily(p.local, remote) ==> told == p.mapped)
    && (!p.wcard && !IsWildcard(remote) ==> p.local == remote)
  }

  /** Where every answer comes from, even if addresses are used again: from a port that
      was listed, after query `id` had been asked, at the daemon that `id` asked; and a
      reply to `id` reaches the query that was answered. */
  lemma AnswerOrigin(route: (nat, SockAddr) -> nat, run: seq<Net>, ev: seq<Event>, k: nat, h: nat, n: Notice)
    returns (id: nat, j: nat, i: nat)
    requires IsRun(route, run, ev) && k < |run| && h in run[k].hosts && n in run[k].hosts[h].out
    requires n.Answer? && n.err == 0
    ensures var issued := run[k].hosts[h].issued;
      && n.id < |issued| && n.remote == issued[n.id].remote && id < |issued| && Reaches(issued[id], issued[n.id])
      && j <= k && h in run[j].hosts && id < |run[j].hosts[h].issued|
      && var b := route(h, WithPort(issued[id].remote, IWARP_PM_PORT));
         && b in run[j].hosts && i < |run[j].hosts[b].ports|
         && Accounts(run[j].hosts[b].ports[i], issued[id].remote, n.mappedRemote)
  {
    NetAlwaysOk(route, run, ev, k);
    assert HostOk(route, run, k, h) && AnswerVouched(route, run, k, h, n);
    var s := run[k].hosts[h];
    assert AnswerOk(n, s.issued);
    var addr;
    id, addr :| ToldFrom(route, run, k, h, n, id, addr);
    j :| 0 <= j <= k && VouchedAt(route, run[j], h, id, addr);
    IssuedStays(route, run, ev, j, k, h);
    var q := s.issued[id];
    var b := route(h, WithPort(q.remote, IWARP_PM_PORT));
    var t := run[j].hosts[b];
    var junk;
    i, junk :| 0 <= i < |t.ports| && Hit(t.ports[i], q.remote, true)
      && addr == AcceptedAt(t.ports[i], q.msg.family, q.msg.ap, junk);
    AlwaysInv(route, run, ev, j, b);
    assert PortOk(t.ports[i]) && IssueOk(q);
    AcceptedFrom(t.ports[i], q, addr, junk);
  }

  /** No reply to another query, for another address, can be taken for one to `id`. */
  ghost predicate Unmistakable(s: State, id: nat)
    requires id < |s.issued|
  {
    forall i | 0 <= i < |s.issued| && Reaches(s.issued[i], s.issued[id]) :: s.issued[i].remote == s.issued[id].remote
  }

  /** Agreement. When a client is told that remote address R is mapped to M, the daemon
      that R leads to had at some earlier point a port listed that accounts for M; and if
      no other query's replies reach this one, that was after the query had been asked. */
  lemma Agreement(route: (nat, SockAddr) -> nat, run: seq<Net>, ev: seq<Event>, k: nat, h: nat, n: Notice)
    returns (j: nat, i: nat)
    requires IsRun(route, run, ev) && k < |run| && h in run[k].hosts && n in run[k].hosts[h].out
    requires n.Answer? && n.err == 0 && n.id < |run[k].hosts[h].issued| && Unmistakable(run[k].hosts[h], n.id)
    ensures j <= k && h in run[j].hosts && !n.remote.Other?
    ensures var b := route(h, WithPort(n.remote, IWARP_PM_PORT));
      b in run[j].hosts && i < |run[j].hosts[b].ports| && Accounts(run[j].hosts[b].ports[i], n.remote, n.mappedRemote)
    ensures var issued := run[k].hosts[h].issued;
      (forall x | 0 <= x < |issued| && x != n.id :: !Reaches(issued[x], issued[n.id])) ==> n.id < |run[j].hosts[h].issued|
  {
    var id;
    id, j, i := AnswerOrigin(route, run, ev, k, h, n);
    AlwaysInv(route, run, ev, k, h);
    assert IssueOk(run[k].hosts[h].issued[n.id]);
  }

  /** What an accepted address says about the port that it was accepted from. */
  lemma AcceptedFrom(p: MappedPort, q: Issue, addr: Endpoint, junk: Endpoint)
    requires PortOk(p) && IssueOk(q) && Hit(p, q.remote, true)
    requires addr == AcceptedAt(p, q.msg.family, q.msg.ap, junk)
    ensures Accounts(p, q.remote, ToSockAddr(q.msg.family, addr))
  {
  }

  // ---- the querying side's own mapping ----

  function MappedTo(t: Table, a: SockAddr): Option<SockAddr> {
    var i := FindSame(t, a, true);
    if i < |t| then Some(t[i].mapped) else None
  }

  lemma MappedToIs(t: Table, i: nat, a: SockAddr)
    requires TableOk(t) && i < |t| && t[i].local == a && !a.Other?
    ensures MappedTo(t, a) == Some(t[i].mapped)
  {
    FoundAt(t, i, a);
  }

  /** Table changes never alter the mapping of an address that stays listed. */
  lemma BumpKeepsMapping(t: Table, i: nat, delta: int, a: SockAddr)
    requires TableOk(t) && i < |t| && !a.Other?
    ensures MappedTo(Bump(t, i, delta), a) == MappedTo(t, a)
  {
    var u := Bump(t, i, delta);
    assert forall j | 0 <= j < |t| :: u[j].local == t[j].local && u[j].mapped == t[j].mapped;
    var x, y := FindSame(t, a, true), FindSame(u, a, true);
    assert x < |t| ==> Same(a, u[x].local);
    assert y < |u| ==> Same(a, t[y].local);
  }

  lemma InsertKeepsMapping(t: Table, p: MappedPort, a: SockAddr)
    requires TableOk(t) && PortOk(p) && Find(t, p.local, true) == |t| && !a.Other? && MappedTo(t, a).Some?
    ensures MappedTo([p] + t, a) == MappedTo(t, a)
  {
    var x := FindSame(t, a, true);
    assert !Hit(t[x], p.local, true);
    InsertOk(t, p);
    MappedToIs([p] + t, x + 1, a);
  }

  lemma DropKeepsMapping(t: Table, i: nat, a: SockAddr)
    requires TableOk(t) && i < |t| && !a.Other? && MappedTo(Drop(t, i), a).Some?
    ensures MappedTo(Drop(t, i), a) == MappedTo(t, a)
  {
    if t[i].refs == 1 {
      var u := Drop(t, i);
      var y := FindSame(u, a, true);
      var x := if y < i then y else y + 1;
      assert u[y] == t[x];
      MappedToIs(t, x, a);
    } else {
      BumpKeepsMapping(t, i, -1, a);
    }
  }

  lemma StepKeepsMapping(s: State, e: Event, a: SockAddr)
    requires Inv(s) && !a.Other? && MappedTo(s.ports, a).Some? && MappedTo(HostNext(s, e).ports, a).Some?
    ensures MappedTo(HostNext(s, e).ports, a) == MappedTo(s.ports, a)
  {
    match e {
      case Add(_, client, nl, local, port, reply) => AddKeepsMapping(s, client, nl, local, port, reply, a);
      case Ask(_, client, nl, local, remote, query) => AskKeepsMapping(s, client, nl, local, remote, query, a);
      case Remove(_, client, local) => RemoveKeepsMapping(s, client, local, a);
      case Report(_, client, nl, local, mapped, port) => ReportKeepsMapping(s, client, nl, local, mapped, port, a);
      case Timer(_, failed) =>
      case Send(_, _) =>
      case Deliver(_, packet, env) => DispatchFrame(s, packet.msg, packet.src, env);
      case Restart(_) =>
    }
  }

  lemma AddKeepsMapping(s: State, client: nat, nl: NlHeader, local: SockAddr, port: PortEnv, reply: bool, a: SockAddr)
    requires Inv(s) && !a.Other? && MappedTo(s.ports, a).Some?
    ensures MappedTo(AddMapping(s, client, nl, local, port, reply).s.ports, a) == MappedTo(s.ports, a)
  {
    HoldKeepsMapping(s, SlotFor(s, local, client, port), a);
  }

  lemma AskKeepsMapping(s: State, client: nat, nl: NlHeader, local: SockAddr, remote: SockAddr, query: QueryEnv, a: SockAddr)
    requires Inv(s) && !a.Other? && MappedTo(s.ports, a).Some?
    ensures MappedTo(QueryMapping(s, client, nl, local, remote, query).s.ports, a) == MappedTo(s.ports, a)
  {
    HoldKeepsMapping(s, SlotFor(s, local, client, query.port), a);
  }

  lemma RemoveKeepsMapping(s: State, client: nat, local: SockAddr, a: SockAddr)
    requires Inv(s) && !a.Other? && MappedTo(s.ports, a).Some?
    ensures var t := RemoveMapping(s, client, local).ports;
            MappedTo(t, a).Some? ==> MappedTo(t, a) == MappedTo(s.ports, a)
  {
    var i := FindSame(s.ports, local, true);
    if i < |s.ports| && s.ports[i].owner == client && MappedTo(RemoveMapping(s, client, local).ports, a).Some? {
      DropKeepsMapping(s.ports, i, a);
    }
  }

  lemma ReportKeepsMapping(s: State, client: nat, nl: NlHeader, local: SockAddr, mapped: SockAddr,
                           port: PortEnv, a: SockAddr)
    requires Inv(s) && !a.Other? && MappedTo(s.ports, a).Some?
    ensures MappedTo(MapInfo(s, client, nl, local, mapped, port).s.ports, a) == MappedTo(s.ports, a)
  {
    var r := ReopenPort(local, mapped, client, port.noPortMap, port.bind, port.alloc);
    if Find(s.ports, local, true) == |s.ports| && r.Some? { InsertKeepsMapping(s.ports, r.value, a); }
  }

  lemma HoldKeepsMapping(s: State, slot: Slot, a: SockAddr)
    requires Inv(s) && SlotIn(s, slot) && !a.Other? && MappedTo(s.ports, a).Some?
    requires slot.Fresh? ==> PortOk(slot.p) && Find(s.ports, slot.p.local, true) == |s.ports|
    ensures !slot.NoSlot? ==> MappedTo(Hold(s, slot).ports, a) == MappedTo(s.ports, a)
  {
    match slot
    case Listed(i) => BumpKeepsMapping(s.ports, i, 1, a);
    case Fresh(p) => InsertKeepsMapping(s.ports, p, a);
    case NoSlot =>
  }

  /** Address `a` is listed at host `h` throughout states `i` to `k`. */
  ghost predicate KeptListed(run: seq<Net>, i: nat, k: nat, h: nat, a: SockAddr) {
    i <= k < |run| && forall t | i <= t <= k :: h in run[t].hosts && MappedTo(run[t].hosts[h].ports, a).Some?
  }

  lemma OneStepMapping(route: (nat, SockAddr) -> nat, run: seq<Net>, ev: seq<Event>, k: nat, h: nat, a: SockAddr)
    requires IsRun(route, run, ev) && KeptListed(run, k, k + 1, h, a) && !a.Other?
    ensures MappedTo(run[k + 1].hosts[h].ports, a) == MappedTo(run[k].hosts[h].ports, a)
  {
    AlwaysInv(route, run, ev, k, h);
    assert StepAt(route, run, ev, k);
    if ev[k].h == h { StepKeepsMapping(run[k].hosts[h], ev[k], a); }
  }

  lemma {:induction false} MappingConstant(route: (nat, SockAddr) -> nat, run: seq<Net>, ev: seq<Event>,
                                           i: nat, k: nat, h: nat, a: SockAddr)
    requires IsRun(route, run, ev) && KeptListed(run, i, k, h, a) && !a.Other?
    ensures MappedTo(run[k].hosts[h].ports, a) == MappedTo(run[i].hosts[h].ports, a)
    decreases k
  {
    if i == k {
    } else {
      MappingConstant(route, run, ev, i, k - 1, h, a);
      OneStepMapping(route, run, ev, k - 1, h, a);
    }
  }

  /** A query's port is listed under the mapping its request carries. */
  lemma AskedPortListed(s: State, client: nat, nl: NlHeader, local: SockAddr, remote: SockAddr, env: QueryEnv)
    requires Inv(s) && Unallocated(s, env.handle)
    requires |QueryMapping(s, client, nl, local, remote, env).s.issued| > |s.issued|
    ensures var s' := QueryMapping(s, client, nl, local, remote, env).s;
      var q := s'.issued[|s.issued|];
      |s'.issued| == |s.issued| + 1 && (!q.local.Other? ==> MappedTo(s'.ports, q.local) == Some(q.mapped))
  {
    var s' := QueryMapping(s, client, nl, local, remote, env).s;
    QueryMappingInv(s, client, nl, local, remote, env);
    var slot := SlotFor(s, local, client, env.port);
    var q := s'.issued[|s.issued|];
    if !q.local.Other? { MappedToIs(s'.ports, if slot.Listed? then slot.i else 0, q.local); }
  }

  lemma OneStepIssued(route: (nat, SockAddr) -> nat, run: seq<Net>, ev: seq<Event>, k: nat, h: nat)
    requires IsRun(route, run, ev) && k < |ev| && h in run[k].hosts
    ensures h in run[k + 1].hosts && Grows(run[k].hosts[h].issued, run[k + 1].hosts[h].issued)
  {
    assert StepAt(route, run, ev, k);
    if ev[k].h == h { IssuedGrows(run[k].hosts[h], ev[k]); }
  }

  lemma {:induction false} IssuedStays(route: (nat, SockAddr) -> nat, run: seq<Net>, ev: seq<Event>, i: nat, k: nat, h: nat)
    requires IsRun(route, run, ev) && i <= k < |run| && h in run[i].hosts
    ensures h in run[k].hosts && Grows(run[i].hosts[h].issued, run[k].hosts[h].issued)
    decreases k
  {
    if i == k {
    } else {
      IssuedStays(route, run, ev, i, k - 1, h);
      OneStepIssued(route, run, ev, k - 1, h);
    }
  }

  /** The step that asks query `id` lists its port under the recorded mapping. */
  lemma IssueStep(route: (nat, SockAddr) -> nat, run: seq<Net>, ev: seq<Event>, i: nat, h: nat, id: nat)
    requires IsRun(route, run, ev) && i < |ev| && h in run[i].hosts && h in run[i + 1].hosts
    requires |run[i].hosts[h].issued| <= id < |run[i + 1].hosts[h].issued|
    ensures var q := run[i + 1].hosts[h].issued[id];
      !q.local.Other? ==> MappedTo(run[i + 1].hosts[h].ports, q.local) == Some(q.mapped)
  {
    assert StepAt(route, run, ev, i);
    AlwaysInv(route, run, ev, i, h);
    NewIssueAsked(run[i].hosts[h], ev[i]);
  }

  lemma NewIssueAsked(s: State, e: Event)
    requires Inv(s) && |HostNext(s, e).issued| > |s.issued| && (e.Ask? ==> Unallocated(s, e.query.handle))
    ensures var s' := HostNext(s, e);
      var q := s'.issued[|s.issued|];
      |s'.issued| == |s.issued| + 1 && (!q.local.Other? ==> MappedTo(s'.ports, q.local) == Some(q.mapped))
  {
    IssuedGrows(s, e);
    AskedPortListed(s, e.client, e.nl, e.local, e.remote, e.query);
  }

  /** The step that reports success reports the table's mapping of the local address. */
  lemma AnswerStep(route: (nat, SockAddr) -> nat, run: seq<Net>, ev: seq<Event>, k: nat, h: nat, n: Notice)
    requires IsRun(route, run, ev) && k < |ev| && h in run[k].hosts && h in run[k + 1].hosts
    requires n.Answer? && n.err == 0 && n in run[k + 1].hosts[h].out && n !in run[k].hosts[h].out
    ensures !n.local.Other? && MappedTo(run[k].hosts[h].ports, n.local) == Some(n.mappedLocal)
  {
    assert StepAt(route, run, ev, k);
    AlwaysInv(route, run, ev, k, h);
    var s := run[k].hosts[h];
    NewNotices(s, ev[k], n);
    var m := ev[k].packet.msg;
    MappedToIs(s.ports, FindSame(s.ports, ToSockAddr(m.family, m.cp), true), n.local);
  }

  /** The querying client is told the local mapping of its query, provided the local
      address stayed listed from the query (event `i`) to the answer (event `k`); and that
      is the one its request carried, if no other query's replies reach it. */
  lemma LocalMappingReported(route: (nat, SockAddr) -> nat, run: seq<Net>, ev: seq<Event>, i: nat, k: nat, h: nat, n: Notice)
    requires IsRun(route, run, ev) && i < k < |ev| && h in run[i].hosts && h in run[i + 1].hosts
    requires h in run[k].hosts && h in run[k + 1].hosts
    requires n.Answer? && n.err == 0 && n in run[k + 1].hosts[h].out && n !in run[k].hosts[h].out
    requires |run[i].hosts[h].issued| <= n.id < |run[i + 1].hosts[h].issued|
    requires KeptListed(run, i + 1, k, h, n.local)
    ensures var q := run[i + 1].hosts[h].issued[n.id];
      && q.local == n.local && n.mappedLocal == q.mapped && n.id < |run[k + 1].hosts[h].issued|
      && (Unmistakable(run[k + 1].hosts[h], n.id) ==> n.mappedLocal == ToSockAddr(q.msg.family, q.msg.mappedCp))
  {
    var q := run[i + 1].hosts[h].issued[n.id];
    IssueStep(route, run, ev, i, h, n.id);
    AnswerStep(route, run, ev, k, h, n);
    IssuedStays(route, run, ev, i + 1, k + 1, h);
    AlwaysInv(route, run, ev, k + 1, h);
    assert AnswerOk(n, run[k + 1].hosts[h].issued);
    MappingConstant(route, run, ev, i + 1, k, h, n.local);
    if Unmistakable(run[k + 1].hosts[h], n.id) {
      var id, _, _ := AnswerOrigin(route, run, ev, k + 1, h, n);
      assert IssueOk(run[k + 1].hosts[h].issued[id]) && IssueOk(q);
    }
  }

  // ---- recovery after a restart ----

  /** Every listed mapping is reported once, by its owner, in some order. */
  ghost predicate Reports(es: seq<C.Entry>, t: Table) {
    && (forall i | 0 <= i < |es| :: C.Rebindable(es[i]) && Lists(t, es[i]))
    && (forall j | 0 <= j < |t| :: Reported(es, t[j].local))
    && (forall i, k | 0 <= i < k < |es| :: es[i].local != es[k].local)
  }

  predicate Lists(t: Table, e: C.Entry) {
    var j := FindSame(t, e.local, true);
    j < |t| && t[j].owner == e.client && t[j].mapped == e.mapped
  }

  ghost predicate Reported(es: seq<C.Entry>, a: SockAddr) {
    exists i :: 0 <= i < |es| && es[i].local == a
  }

  lemma {:induction false} ReplayFrame(s: State, u: State, es: seq<C.Entry>)
    requires s.ports == u.ports
    ensures C.Replay(s, es).ports == C.Replay(u, es).ports
  {
    if es == [] {
    } else {
      ReplayFrame(s, u, es[..|es| - 1]);
    }
  }

  lemma ReportsIndependent(es: seq<C.Entry>, t: Table)
    requires TableOk(t) && Reports(es, t)
    ensures C.Independent(es)
  {
    forall i, k | 0 <= i < k < |es| ensures !Conflict(es[i].local, es[k].local) {
      assert C.Rebindable(es[i]) && C.Rebindable(es[k]) && Lists(t, es[i]) && Lists(t, es[k]);
      var x, y := FindSame(t, es[i].local, true), FindSame(t, es[k].local, true);
      assert t[x].local == es[i].local && t[y].local == es[k].local && x != y;
      ConflictSymmetric(t[x].local, t[y].local);
    }
  }

  /** The listed port for an address, its reference count aside. */
  function PortFor(t: Table, a: SockAddr): Option<MappedPort> {
    var i := FindSame(t, a, true);
    if i < |t| then Some(t[i].(refs := 1)) else None
  }

  /** A daemon that starts over and is told the mappings that were listed before, each by
      its owner, in any order and with successful binds, has for every address the port it
      had before: the same owner, the same mapping. */
  lemma RestartRecovers(s: State, es: seq<C.Entry>, a: SockAddr)
    requires Inv(s) && Reports(es, s.ports) && !a.Other?
    ensures PortFor(C.Replay(Restarted(s), es).ports, a) == PortFor(s.ports, a)
  {
    var t := C.Replay(START, es).ports;
    ReplayFrame(START, Restarted(s), es);
    ReportsIndependent(es, s.ports);
    C.ReplayIndependent(es);
    C.ListingAt(es);
    StartInv();
    C.ReplayInv(START, es);
    SamePorts(s.ports, t, es, a);
  }

  lemma SamePorts(t: Table, u: Table, es: seq<C.Entry>, a: SockAddr)
    requires TableOk(t) && TableOk(u) && Reports(es, t) && !a.Other? && |u| == |es|
    requires forall i | 0 <= i < |es| ::
      u[i] == NewPort(es[|es| - 1 - i].client, es[|es| - 1 - i].local, es[|es| - 1 - i].mapped)
    ensures PortFor(u, a) == PortFor(t, a)
  {
    var j := FindSame(t, a, true);
    if j < |t| {
      assert Reported(es, t[j].local) && PortOk(t[j]);
      var i :| 0 <= i < |es| && es[i].local == a;
      assert Lists(t, es[i]);
      assert u[|es| - 1 - i] == t[j].(refs := 1);
      FoundAt(u, |es| - 1 - i, a);
    } else {
      forall i | 0 <= i < |u| ensures u[i].local != a {
        assert Lists(t, es[|es| - 1 - i]);
      }
    }
  }
}
