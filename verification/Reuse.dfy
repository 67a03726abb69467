/** Handles are addresses, and addresses are used again. The run in which the late accept
    of an old conversation answers a new query about another address: the condition of
    `Network.Agreement` cannot be dropped. */
module Reuse {
  import opened Addresses
  import opened Options
  import opened PortTable
  import opened Requests
  import opened Daemon
  import C = Conversations
  import opened Network

  /** Two hosts: the address of `local` leads to host 0, every other one to host 1. */
  function TwoHosts(local: SockAddr): (nat, SockAddr) -> nat {
    (h: nat, a: SockAddr) => if !a.Other? && !local.Other? && a.ip == local.ip then 0 else 1
  }

  const QUERY_PORT := PortEnv(true, BindFailed, true)

  function QueryAt(handle: Address): QueryEnv { QueryEnv(QUERY_PORT, true, handle, NOWHERE, NOWHERE, true) }

  const SMOOTH := WireEnv([], true, 1, true, true, NOWHERE)

  /** Two specific addresses of another host, of the family of `local`. */
  predicate Scene(local: SockAddr, r1: SockAddr, r2: SockAddr) {
    && !local.Other? && !IsWildcard(local) && SameFamily(local, r1) && SameFamily(local, r2)
    && !IsWildcard(r1) && !IsWildcard(r2) && r1.ip != local.ip && r2.ip != local.ip
  }

  /** A run so far, of hosts 0 and 1, in which host 1 never lists anything but `p`. */
  ghost predicate SoFar(local: SockAddr, run: seq<Net>, ev: seq<Event>, p: MappedPort) {
    && IsRun(TwoHosts(local), run, ev)
    && forall j | 0 <= j < |run| :: OnlyLists(run[j], p)
  }

  ghost predicate OnlyLists(n: Net, p: MappedPort) {
    0 in n.hosts && 1 in n.hosts && forall i | 0 <= i < |n.hosts[1].ports| :: n.hosts[1].ports[i] == p
  }

  /** One more event. */
  lemma Play(local: SockAddr, run: seq<Net>, ev: seq<Event>, p: MappedPort, e: Event)
    returns (run': seq<Net>, ev': seq<Event>)
    requires SoFar(local, run, ev, p) && Enabled(TwoHosts(local), run[|ev|], e) && OnlyLists(Next(run[|ev|], e), p)
    ensures SoFar(local, run', ev', p) && |ev'| == |ev| + 1 && run'[|ev'|] == Next(run[|ev|], e)
  {
    run', ev' := run + [Next(run[|ev|], e)], ev + [e];
    forall i | 0 <= i < |ev'| ensures StepAt(TwoHosts(local), run', ev', i) {
      if i < |ev| { assert StepAt(TwoHosts(local), run, ev, i); }
    }
  }

  /** The port that host 1 lists, and the daemon that has just listed it. */
  function Listed1(r1: SockAddr, x: nat): MappedPort { NewPort(0, r1, WithPort(r1, x)) }

  function Server(r1: SockAddr, x: nat): State {
    AddMapping(START, 0, NO_HEADER, r1, PortEnv(false, Bound(x), true), true).s
  }

  lemma ServerReady(r1: SockAddr, x: nat)
    requires !r1.Other? && !IsWildcard(r1)
    ensures var s := Server(r1, x);
      Inv(s) && s.ports == [Listed1(r1, x)] && s.reqs == [] && Find(s.ports, r1, true) == 0
  {
    StartInv();
    AddMappingInv(START, 0, NO_HEADER, r1, PortEnv(false, Bound(x), true), true);
    assert Hit(Listed1(r1, x), r1, true);
  }

  /** The querying daemon after its first question, and the packet with the request. */
  function Asker(local: SockAddr, r: SockAddr, s: State, handle: Address): State {
    QueryMapping(s, 0, NO_HEADER, local, r, QueryAt(handle)).s
  }

  lemma AskerReady(local: SockAddr, r1: SockAddr, handle: Address)
    requires !local.Other? && !IsWildcard(local) && SameFamily(local, r1)
    ensures var s := Asker(local, r1, START, handle);
      && Inv(s) && |s.pending| > 0 && s.pending[0].dest == WithPort(r1, IWARP_PM_PORT) && |s.issued| == 1
      && s.ports == [NewPort(0, local, local)] && s.issued[0].msg == s.pending[0].data && s.issued[0].remote == r1
      && var m := s.pending[0].data;
         && m.mt == MtReq && m.handle == handle
         && ToSockAddr(m.family, m.ap) == r1 && ToSockAddr(m.family, m.cp) == local
  {
    StartInv();
    C.QueryLeg(START, 0, NO_HEADER, local, r1, QueryAt(handle));
    QueryMappingInv(START, 0, NO_HEADER, local, r1, QueryAt(handle));
  }

  function Request(local: SockAddr, m: SendMsg): Packet { Packet(0, local, m.dest, m.data) }

  function Reply(r1: SockAddr, m: SendMsg): Packet { Packet(1, r1, m.dest, m.data) }

  lemma Opening(local: SockAddr, r1: SockAddr, x: nat) returns (run: seq<Net>, ev: seq<Event>)
    requires !r1.Other? && !IsWildcard(r1)
    ensures SoFar(local, run, ev, Listed1(r1, x)) && run[|ev|] == Net(map[0 := START, 1 := Server(r1, x)], {})
  {
    ServerReady(r1, x);
    run, ev := [Net(map[0 := START, 1 := START], {})], [];
    run, ev := Play(local, run, ev, Listed1(r1, x), Add(1, 0, NO_HEADER, r1, PortEnv(false, Bound(x), true), true));
    assert run[|ev|].hosts == map[0 := START, 1 := Server(r1, x)];
  }

  /** Host 1 lists its port, host 0 asks, and the request is on the wire. */
  lemma FirstRequest(local: SockAddr, r1: SockAddr, r2: SockAddr, x: nat, handle: Address)
    returns (run: seq<Net>, ev: seq<Event>, req: Packet)
    requires Scene(local, r1, r2)
    ensures SoFar(local, run, ev, Listed1(r1, x))
    ensures var a := Asker(local, r1, START, handle);
      && |a.pending| > 0 && req == Request(local, a.pending[0])
      && run[|ev|] == Net(map[0 := a.(pending := []), 1 := Server(r1, x)], {req})
  {
    ServerReady(r1, x);
    AskerReady(local, r1, handle);
    var a := Asker(local, r1, START, handle);
    run, ev := Opening(local, r1, x);
    run, ev := Play(local, run, ev, Listed1(r1, x), Event.Ask(0, 0, NO_HEADER, local, r1, QueryAt(handle)));
    assert run[|ev|].hosts == map[0 := a, 1 := Server(r1, x)];
    req := Request(local, a.pending[0]);
    run, ev := Play(local, run, ev, Listed1(r1, x), Send(0, {req}));
    assert run[|ev|].hosts == map[0 := a.(pending := []), 1 := Server(r1, x)];
  }

  /** The first conversation, up to the accept on the wire. */
  lemma FirstConversation(local: SockAddr, r1: SockAddr, r2: SockAddr, x: nat, handle: Address)
    returns (run: seq<Net>, ev: seq<Event>, acc: Packet)
    requires Scene(local, r1, r2)
    ensures SoFar(local, run, ev, Listed1(r1, x)) && acc in run[|ev|].wire && 0 in run[|ev|].hosts
    ensures run[|ev|].hosts[0] == Asker(local, r1, START, handle).(pending := [])
    ensures acc.from == 1 && acc.dst == local && acc.msg.mt == MtAcc && acc.msg.handle == handle
    ensures ToSockAddr(acc.msg.family, acc.msg.cp) == local
    ensures ToSockAddr(acc.msg.family, acc.msg.ap) == WithPort(r1, x)
  {
    var req;
    run, ev, req := FirstRequest(local, r1, r2, x, handle);
    AskerReady(local, r1, handle);
    ServerReady(r1, x);
    acc := Answered(local, r1, x, req);
    run, ev := Play(local, run, ev, Listed1(r1, x), Deliver(1, req, SMOOTH));
    run, ev := Play(local, run, ev, Listed1(r1, x), Send(1, {acc}));
  }

  /** The accept that the request brings forth. */
  lemma Answered(local: SockAddr, r1: SockAddr, x: nat, req: Packet) returns (acc: Packet)
    requires !r1.Other? && !IsWildcard(r1) && !local.Other? && SameFamily(local, r1)
    requires req.msg.mt == MtReq && req.msg.handle != 0 && ToSockAddr(req.msg.family, req.msg.ap) == r1
    requires ToSockAddr(req.msg.family, req.msg.cp) == local
    ensures var c := WireRequest(Server(r1, x), req.msg, local, SMOOTH).s;
      c.ports == Server(r1, x).ports && |c.pending| > 0 && acc == Reply(r1, c.pending[0])
    ensures acc.from == 1 && acc.dst == local && acc.msg.mt == MtAcc && acc.msg.handle == req.msg.handle
    ensures ToSockAddr(acc.msg.family, acc.msg.cp) == local
    ensures ToSockAddr(acc.msg.family, acc.msg.ap) == WithPort(r1, x)
  {
    ServerReady(r1, x);
    var c := WireRequest(Server(r1, x), req.msg, local, SMOOTH).s;
    C.RequestLeg(Server(r1, x), req.msg, r1, local, SMOOTH);
    acc := Reply(r1, c.pending[0]);
  }

  /** Timer passes at host 0. */
  lemma {:induction false} Wait(local: SockAddr, run: seq<Net>, ev: seq<Event>, p: MappedPort, n: nat)
    returns (run': seq<Net>, ev': seq<Event>)
    requires SoFar(local, run, ev, p) && 0 in run[|ev|].hosts
    ensures SoFar(local, run', ev', p) && 0 in run'[|ev'|].hosts && run'[|ev'|].wire == run[|ev|].wire
    ensures var s, s' := run[|ev|].hosts[0], run'[|ev'|].hosts[0];
      s' == s.(reqs := Ticks(s.reqs, n), pending := s'.pending)
    decreases n
  {
    if n == 0 {
      run', ev' := run, ev;
    } else {
      assert OnlyLists(run[|ev|], p);
      run', ev' := Play(local, run, ev, p, Timer(0, {}));
      run', ev' := Wait(local, run', ev', p, n - 1);
    }
  }

  predicate IssuedAs(q: Issue, local: SockAddr, remote: SockAddr, handle: nat) {
    q.local == local && q.remote == remote && q.msg.handle == handle
  }

  /** The old object is gone, the new query has its address: the old accept answers it. */
  lemma SecondConversation(local: SockAddr, r2: SockAddr, run: seq<Net>, ev: seq<Event>, p: MappedPort, acc: Packet,
                           handle: Address)
    returns (run': seq<Net>, ev': seq<Event>)
    requires SoFar(local, run, ev, p) && acc in run[|ev|].wire && 0 in run[|ev|].hosts
    requires !local.Other? && !IsWildcard(local) && SameFamily(local, r2)
    requires acc.from == 1 && acc.dst == local && acc.msg.mt == MtAcc && acc.msg.handle == handle
    requires ToSockAddr(acc.msg.family, acc.msg.cp) == local
    requires var s := run[|ev|].hosts[0]; s.reqs == [] && s.ports == [NewPort(0, local, local)]
    ensures SoFar(local, run', ev', p) && 0 in run'[|ev'|].hosts
    ensures var s, s' := run[|ev|].hosts[0], run'[|ev'|].hosts[0];
      && |s'.issued| == |s.issued| + 1 && s'.issued[..|s.issued|] == s.issued
      && IssuedAs(s'.issued[|s.issued|], local, r2, handle)
      && |s'.out| > 0
      && var n := s'.out[|s'.out| - 1];
         && n.Answer? && n.err == 0 && n.id == |s.issued| && n.remote == r2
         && n.mappedRemote == ToSockAddr(acc.msg.family, acc.msg.ap)
  {
    var s := run[|ev|].hosts[0];
    AlwaysInv(TwoHosts(local), run, ev, |ev|, 0);
    assert OnlyLists(run[|ev|], p);
    assert Hit(s.ports[0], local, true);
    C.QueryLeg(s, 0, NO_HEADER, local, r2, QueryAt(handle));
    run', ev' := Play(local, run, ev, p, Event.Ask(0, 0, NO_HEADER, local, r2, QueryAt(handle)));
    var s1 := run'[|ev'|].hosts[0];
    C.AcceptReaches(s1, acc.msg, acc.src, SMOOTH);
    DispatchFrame(s1, acc.msg, acc.src, SMOOTH);
    run', ev' := Play(local, run', ev', p, Deliver(0, acc, SMOOTH));
  }

  /** For all addresses `local`, `r1` and `r2` of the scene, every mapping of `r1` and every
      handle: two queries from `local` under that handle, first for `r1` and, its object
      expired, for `r2`. The client that asked for `r2` is told the mapping of `r1`, which
      no port that was ever listed where `r2` leads to accounts for. */
  lemma ReuseMisleads(local: SockAddr, r1: SockAddr, r2: SockAddr, x: nat, handle: Address)
    returns (run: seq<Net>, ev: seq<Event>, n: Notice)
    requires Scene(local, r1, r2) && r1 != r2
    ensures IsRun(TwoHosts(local), run, ev) && 0 in run[|ev|].hosts && n in run[|ev|].hosts[0].out
    ensures n.Answer? && n.err == 0 && n.id == 1 && n.remote == r2 && n.mappedRemote == WithPort(r1, x)
    ensures var s := run[|ev|].hosts[0];
      && |s.issued| == 2 && Reaches(s.issued[0], s.issued[1])
      && IssuedAs(s.issued[0], local, r1, handle) && IssuedAs(s.issued[1], local, r2, handle)
    ensures TwoHosts(local)(0, WithPort(r2, IWARP_PM_PORT)) == 1
    ensures forall j, i | 0 <= j < |run| && 1 in run[j].hosts && 0 <= i < |run[j].hosts[1].ports| ::
      !Accounts(run[j].hosts[1].ports[i], r2, n.mappedRemote)
  {
    var acc;
    run, ev, acc := FirstConversation(local, r1, r2, x, handle);
    AskerReady(local, r1, handle);
    var a := run[|ev|].hosts[0];
    run, ev := Wait(local, run, ev, Listed1(r1, x), 11);
    DrainsInElevenTicks(a.reqs, 11);
    var s := run[|ev|].hosts[0];
    run, ev := SecondConversation(local, r2, run, ev, Listed1(r1, x), acc, handle);
    var s' := run[|ev|].hosts[0];
    n := s'.out[|s'.out| - 1];
    assert s'.issued[0] == s'.issued[..1][0] == s.issued[0];
    AlwaysInv(TwoHosts(local), run, ev, |ev|, 0);
    assert AnswerOk(n, s'.issued);
    forall j, i | 0 <= j < |run| && 1 in run[j].hosts && 0 <= i < |run[j].hosts[1].ports|
      ensures !Accounts(run[j].hosts[1].ports[i], r2, n.mappedRemote)
    {
      assert OnlyLists(run[j], Listed1(r1, x));
    }
  }

  /** In this run host `h` has asked for `r1` and then for `r2`, both times from `local` and
      under one handle, and `n` answers the second query. */
  ghost predicate AnsweredSecond(route: (nat, SockAddr) -> nat, run: seq<Net>, ev: seq<Event>, k: nat, h: nat, n: Notice,
                                 local: SockAddr, r1: SockAddr, r2: SockAddr, handle: nat)
  {
    && IsRun(route, run, ev) && k < |run| && h in run[k].hosts && n in run[k].hosts[h].out
    && n.Answer? && n.err == 0 && n.id == 1
    && var issued := run[k].hosts[h].issued;
       |issued| == 2 && IssuedAs(issued[0], local, r1, handle) && IssuedAs(issued[1], local, r2, handle)
  }

  /** Up to state `k` some port listed where the remote address leads to accounts for the answer. */
  ghost predicate Accounted(route: (nat, SockAddr) -> nat, run: seq<Net>, k: nat, h: nat, n: Notice)
    requires n.Answer?
  {
    exists j, i :: 0 <= j <= k < |run| && AccountedAt(run[j], route(h, WithPort(n.remote, IWARP_PM_PORT)), i, n)
  }

  predicate AccountedAt(net: Net, b: nat, i: int, n: Notice)
    requires n.Answer?
  {
    b in net.hosts && 0 <= i < |net.hosts[b].ports| && Accounts(net.hosts[b].ports[i], n.remote, n.mappedRemote)
  }

  /** Agreement survives the reuse of a handle, in every run, if and only if both queries are
      for the same address. */
  lemma ReuseSafeIff(local: SockAddr, r1: SockAddr, r2: SockAddr, handle: Address)
    requires Scene(local, r1, r2)
    ensures (forall route, run, ev, k, h, n | AnsweredSecond(route, run, ev, k, h, n, local, r1, r2, handle) ::
               Accounted(route, run, k, h, n)) <==> r1 == r2
  {
    if r1 == r2 {
      forall route, run, ev, k, h, n | AnsweredSecond(route, run, ev, k, h, n, local, r1, r2, handle)
        ensures Accounted(route, run, k, h, n)
      {
        SameRemoteAgrees(route, run, ev, k, h, n, local, r1, handle);
      }
    } else {
      var run, ev, n := ReuseMisleads(local, r1, r2, 0, handle);
      assert AnsweredSecond(TwoHosts(local), run, ev, |ev|, 0, n, local, r1, r2, handle);
      assert !Accounted(TwoHosts(local), run, |ev|, 0, n);
    }
  }

  lemma SameRemoteAgrees(route: (nat, SockAddr) -> nat, run: seq<Net>, ev: seq<Event>, k: nat, h: nat, n: Notice,
                         local: SockAddr, r: SockAddr, handle: nat)
    requires AnsweredSecond(route, run, ev, k, h, n, local, r, r, handle)
    ensures Accounted(route, run, k, h, n)
  {
    var j, i := Agreement(route, run, ev, k, h, n);
    assert AccountedAt(run[j], route(h, WithPort(n.remote, IWARP_PM_PORT)), i, n);
  }
}
