/** Tracking objects for conversations with a peer port mapper: creation, matching
    by (assochandle, source address, role), completion, and the one-second tick that
    retransmits and expires them. */
module Requests {
  import opened Addresses
  import opened Options

  datatype MsgType = MtReq | MtAcc | MtAck | MtRej

  /** A port mapper message. `mappedCp` travels in requests only. */
  datatype WireMsg = WireMsg(
    mt: MsgType, family: Family, ap: Endpoint, cp: Endpoint, mappedCp: Endpoint, handle: nat)

  datatype SendMsg = SendMsg(dest: SockAddr, data: WireMsg)

  const NOWHERE := Endpoint(0, 0)

  /** The other three message types reuse the parameters of the message they answer;
      the mapped fields are zeroed when such a message is formed. */
  function Form(mt: MsgType, parms: WireMsg): WireMsg {
    parms.(mt := mt, mappedCp := if mt == MtReq then parms.mappedCp else NOWHERE)
  }

  /** Identification of the client request that started a conversation. */
  datatype NlHeader = NlHeader(kind: nat, seqno: nat, pid: nat)

  const NO_HEADER := NlHeader(0, 0, 0)

  datatype Role = Query | Accept | Ack

  /** Where an object was allocated: never null. */
  type Address = a: int | a > 0 witness 1

  /** `id` is history: the number of the query that the object belongs to. No step
      depends on it. */
  datatype MapRequest = MapRequest(
    src: SockAddr, remote: SockAddr, nl: NlHeader, handle: nat,
    msg: Option<SendMsg>, timeout: int, complete: bool, role: Role, id: nat)

  const MAP_REQ_TIMEOUT: int := 10

  /** `address` is where the object was allocated; it doubles as the handle of a
      conversation started here. */
  function NewRequest(nl: NlHeader, src: SockAddr, remote: SockAddr, handle: nat,
                      role: Role, msg: Option<SendMsg>, address: Address, id: nat): MapRequest
  {
    MapRequest(src, remote, nl, if handle == 0 then address else handle, msg, MAP_REQ_TIMEOUT, false, role, id)
  }

  // ---- matching and completion ----

  predicate Wanted(o: MapRequest, handle: nat, src: SockAddr, roles: set<Role>) {
    handle == o.handle && o.role in roles && Same(src, o.src)
  }

  function FindReq(rs: seq<MapRequest>, handle: nat, src: SockAddr, roles: set<Role>): (i: nat)
    ensures i <= |rs|
    ensures forall j | 0 <= j < i :: !Wanted(rs[j], handle, src, roles)
    ensures i < |rs| ==> Wanted(rs[i], handle, src, roles)
  {
    if rs == [] || Wanted(rs[0], handle, src, roles) then 0 else 1 + FindReq(rs[1..], handle, src, roles)
  }

  /** The effect of an answer on the object it matches. */
  function Touch(o: MapRequest): MapRequest {
    if o.complete then o
    else if o.role == Ack then o.(timeout := MAP_REQ_TIMEOUT)
    else o.(timeout := 0, complete := true)
  }

  // ---- the tick ----

  /** An object is retransmitted while it is neither brand new nor expired. */
  predicate Resends(o: MapRequest) {
    0 < o.timeout < MAP_REQ_TIMEOUT && o.role != Ack
  }

  function TickReqs(rs: seq<MapRequest>): seq<MapRequest> {
    if rs == [] then []
    else (if rs[0].timeout > 0 then [rs[0].(timeout := rs[0].timeout - 1)] else []) + TickReqs(rs[1..])
  }

  /** The pending messages after one tick. `failed` holds the positions (counted from
      `k`) whose copy could not be allocated. New messages go to the front. */
  function TickSends(rs: seq<MapRequest>, failed: set<nat>, k: nat, pending: seq<SendMsg>): seq<SendMsg> {
    if rs == [] then pending
    else if Resends(rs[0]) && rs[0].msg.Some? && k !in failed then
      TickSends(rs[1..], failed, k + 1, [rs[0].msg.value] + pending)
    else TickSends(rs[1..], failed, k + 1, pending)
  }

  // ---- what holds of every tracking object ----

  predicate ReqOk(o: MapRequest) {
    && 0 <= o.timeout <= MAP_REQ_TIMEOUT && o.handle != 0
    && (o.complete ==> o.timeout == 0 && o.role != Ack)
    && (o.role != Ack ==> o.msg.Some?)
    && (o.role == Accept ==>
          && o.msg.value.data.mt == MtAcc
          && (o.msg.value.data.handle == o.handle || o.msg.value.data.handle == 0)
          && o.src == ToSockAddr(o.msg.value.data.family, o.msg.value.data.ap))
  }

  ghost predicate ReqsOk(rs: seq<MapRequest>) {
    forall i | 0 <= i < |rs| :: ReqOk(rs[i])
  }

  lemma TouchOk(rs: seq<MapRequest>, k: nat)
    requires ReqsOk(rs) && k < |rs|
    ensures ReqsOk(rs[k := Touch(rs[k])])
  {
    assert ReqOk(rs[k]);
  }

  /** Two QUERY objects with one handle, or two ACCEPT objects for one conversation. */
  predicate Twins(a: MapRequest, b: MapRequest) {
    a.role == b.role && a.handle == b.handle && (a.role == Query || (a.role == Accept && Same(a.src, b.src)))
  }

  /** An ACK object that a search meets before the open query with its handle. */
  predicate Masks(a: MapRequest, b: MapRequest) {
    a.role == Ack && b.role == Query && !b.complete && a.handle == b.handle
  }

  predicate Clash(a: MapRequest, b: MapRequest) { Twins(a, b) || Masks(a, b) }

  ghost predicate NoClash(rs: seq<MapRequest>) {
    forall i, j | 0 <= i < j < |rs| :: !Clash(rs[i], rs[j])
  }

  /** No open query has this handle. */
  ghost predicate NoneOpen(rs: seq<MapRequest>, handle: nat) {
    forall o | o in rs && o.role == Query && !o.complete :: o.handle != handle
  }

  /** Objects of this query that may still produce an answer. */
  function OpenQueries(rs: seq<MapRequest>, id: nat): nat {
    if rs == [] then 0
    else (if rs[0].role == Query && !rs[0].complete && rs[0].id == id then 1 else 0) + OpenQueries(rs[1..], id)
  }

  lemma {:induction false} OpenQueriesTouch(rs: seq<MapRequest>, i: nat, id: nat)
    requires i < |rs|
    ensures OpenQueries(rs[i := Touch(rs[i])], id)
         == OpenQueries(rs, id) - (if rs[i].role == Query && !rs[i].complete && rs[i].id == id then 1 else 0)
  {
    if i == 0 {
    } else {
      assert rs[i := Touch(rs[i])][1..] == rs[1..][i - 1 := Touch(rs[i])];
      OpenQueriesTouch(rs[1..], i - 1, id);
    }
  }

  lemma {:induction false} OpenQueriesTick(rs: seq<MapRequest>, id: nat)
    ensures OpenQueries(TickReqs(rs), id) <= OpenQueries(rs, id)
  {
    if rs == [] {
    } else {
      OpenQueriesTick(rs[1..], id);
      var hd := rs[0].(timeout := rs[0].timeout - 1);
      if rs[0].timeout > 0 {
        assert ([hd] + TickReqs(rs[1..]))[1..] == TickReqs(rs[1..]);
      } else {
        assert TickReqs(rs) == TickReqs(rs[1..]);
      }
    }
  }

  lemma {:induction false} QueryPresent(rs: seq<MapRequest>, i: nat)
    requires i < |rs| && rs[i].role == Query && !rs[i].complete
    ensures OpenQueries(rs, rs[i].id) >= 1
  {
    if i == 0 {
    } else {
      QueryPresent(rs[1..], i - 1);
    }
  }

  /** Every object after a tick is an object from before, one second older. */
  ghost predicate AgedFrom(o: MapRequest, rs: seq<MapRequest>) {
    o.(timeout := o.timeout + 1) in rs && o.timeout >= 0
  }

  lemma {:induction false} TickAges(rs: seq<MapRequest>)
    requires ReqsOk(rs)
    ensures forall o | o in TickReqs(rs) :: AgedFrom(o, rs)
    ensures ReqsOk(TickReqs(rs))
  {
    if rs == [] {
    } else {
      assert ReqOk(rs[0]);
      assert forall i | 0 <= i < |rs[1..]| :: rs[1..][i] == rs[i + 1];
      TickAges(rs[1..]);
    }
  }

  lemma {:induction false} TickKeepsNoClash(rs: seq<MapRequest>)
    requires ReqsOk(rs) && NoClash(rs)
    ensures NoClash(TickReqs(rs))
  {
    if rs == [] {
    } else {
      var tl, hd := TickReqs(rs[1..]), rs[0].(timeout := rs[0].timeout - 1);
      assert forall i | 0 <= i < |rs[1..]| :: rs[1..][i] == rs[i + 1];
      TickKeepsNoClash(rs[1..]);
      TickAges(rs[1..]);
      forall j | 0 <= j < |tl| ensures !Clash(hd, tl[j]) {
        assert AgedFrom(tl[j], rs[1..]);
        var k :| 0 <= k < |rs[1..]| && rs[1..][k] == tl[j].(timeout := tl[j].timeout + 1);
        assert !Clash(rs[0], rs[k + 1]);
      }
      if rs[0].timeout > 0 { assert TickReqs(rs) == [hd] + tl; } else { assert TickReqs(rs) == tl; }
    }
  }

  /** A tick queues nothing but messages of live, incomplete, non-ACK objects. */
  lemma {:induction false} TickSendsFrom(rs: seq<MapRequest>, failed: set<nat>, k: nat, pending: seq<SendMsg>)
    requires ReqsOk(rs)
    ensures forall m | m in TickSends(rs, failed, k, pending) ::
      m in pending || exists o :: o in rs && !o.complete && o.role != Ack && o.msg == Some(m)
  {
    if rs == [] {
    } else {
      var p := if Resends(rs[0]) && rs[0].msg.Some? && k !in failed then [rs[0].msg.value] + pending else pending;
      assert forall i | 0 <= i < |rs[1..]| :: rs[1..][i] == rs[i + 1];
      TickSendsFrom(rs[1..], failed, k + 1, p);
      assert ReqOk(rs[0]);
      forall m | m in TickSends(rs, failed, k, pending)
        ensures m in pending || exists o :: o in rs && !o.complete && o.role != Ack && o.msg == Some(m)
      {
        if m in p {
          if m !in pending { assert rs[0] in rs && rs[0].msg == Some(m); }
        } else {
          var o :| o in rs[1..] && !o.complete && o.role != Ack && o.msg == Some(m);
          assert o in rs;
        }
      }
    }
  }

  /** The message of an object joins the front of the queue if it is due and its copy could be made, after those of
      the objects before it. */
  lemma {:induction false} TickSendsLast(rs: seq<MapRequest>, o: MapRequest, failed: set<nat>, k: nat, pending: seq<SendMsg>)
    requires o.msg.Some?
    ensures TickSends(rs + [o], failed, k, pending) ==
      (if 0 < o.timeout < 10 && o.role != Ack && k + |rs| !in failed then [o.msg.value] else [])
      + TickSends(rs, failed, k, pending)
  {
    if rs == [] {
      assert rs + [o] == [o];
    } else {
      var p := if Resends(rs[0]) && rs[0].msg.Some? && k !in failed then [rs[0].msg.value] + pending else pending;
      assert (rs + [o])[1..] == rs[1..] + [o];
      TickSendsLast(rs[1..], o, failed, k + 1, p);
    }
  }

  // ---- bounded retransmission and drain ----

  /** `n` ticks with no other activity. */
  function Ticks(rs: seq<MapRequest>, n: nat): seq<MapRequest>
    decreases n
  {
    if n == 0 then rs else Ticks(TickReqs(rs), n - 1)
  }

  /** Messages queued by `n` undisturbed ticks whose allocations succeed, latest first. */
  function Resent(rs: seq<MapRequest>, n: nat): seq<SendMsg>
    decreases n
  {
    if n == 0 then [] else Resent(TickReqs(rs), n - 1) + TickSends(rs, {}, 0, [])
  }

  lemma {:induction false} TickReqsConcat(a: seq<MapRequest>, b: seq<MapRequest>)
    ensures TickReqs(a + b) == TickReqs(a) + TickReqs(b)
  {
    if a == [] {
      assert a + b == b;
    } else {
      assert (a + b)[1..] == a[1..] + b;
      TickReqsConcat(a[1..], b);
    }
  }

  lemma {:induction false} TickSendsConcat(a: seq<MapRequest>, b: seq<MapRequest>, k: nat, pending: seq<SendMsg>)
    ensures TickSends(a + b, {}, k, pending) == TickSends(b, {}, k + |a|, TickSends(a, {}, k, pending))
  {
    if a == [] {
      assert a + b == b;
    } else {
      assert (a + b)[1..] == a[1..] + b;
      var p := if Resends(a[0]) && a[0].msg.Some? then [a[0].msg.value] + pending else pending;
      TickSendsConcat(a[1..], b, k + 1, p);
    }
  }

  lemma TickSendsHead(rs: seq<MapRequest>, k: nat, pending: seq<SendMsg>)
    requires rs != []
    ensures var hd := if Resends(rs[0]) && rs[0].msg.Some? then [rs[0].msg.value] else [];
            TickSends(rs, {}, k, pending) == TickSends(rs[1..], {}, k + 1, hd + pending)
  {
    assert [] + pending == pending;
  }

  lemma {:induction false} TickSendsPending(rs: seq<MapRequest>, k: nat, k': nat, pending: seq<SendMsg>)
    ensures TickSends(rs, {}, k, pending) == TickSends(rs, {}, k', []) + pending
  {
    if rs == [] {
    } else {
      var hd := if Resends(rs[0]) && rs[0].msg.Some? then [rs[0].msg.value] else [];
      TickSendsHead(rs, k, pending);
      TickSendsHead(rs, k', []);
      TickSendsPending(rs[1..], k + 1, k' + 1, hd + pending);
      TickSendsPending(rs[1..], k' + 1, k' + 1, hd + []);
      var rest := TickSends(rs[1..], {}, k' + 1, []);
      assert rest + (hd + pending) == (rest + (hd + [])) + pending;
    }
  }

  lemma {:induction false} TicksConcat(a: seq<MapRequest>, b: seq<MapRequest>, n: nat)
    ensures Ticks(a + b, n) == Ticks(a, n) + Ticks(b, n)
    decreases n
  {
    if n == 0 {
    } else {
      TickReqsConcat(a, b);
      TicksConcat(TickReqs(a), TickReqs(b), n - 1);
    }
  }

  /** What is retransmitted in `n` ticks, in no particular order. */
  ghost function Traffic(rs: seq<MapRequest>, n: nat): multiset<SendMsg>
    decreases n
  {
    if n == 0 then multiset{} else Traffic(TickReqs(rs), n - 1) + multiset(TickSends(rs, {}, 0, []))
  }

  lemma {:induction false} TrafficIs(rs: seq<MapRequest>, n: nat)
    ensures multiset(Resent(rs, n)) == Traffic(rs, n)
    decreases n
  {
    if n == 0 {
    } else {
      TrafficIs(TickReqs(rs), n - 1);
    }
  }

  lemma {:induction false} TrafficConcat(a: seq<MapRequest>, b: seq<MapRequest>, n: nat)
    ensures Traffic(a + b, n) == Traffic(a, n) + Traffic(b, n)
    decreases n
  {
    if n == 0 {
    } else {
      var ta, tb := TickReqs(a), TickReqs(b);
      var sa, sb := multiset(TickSends(a, {}, 0, [])), multiset(TickSends(b, {}, 0, []));
      calc {
        Traffic(a + b, n);
        { TrafficOfParts(a, b, n); }
        Traffic(ta + tb, n - 1) + (sa + sb);
        { TrafficConcat(ta, tb, n - 1); }
        (Traffic(ta, n - 1) + Traffic(tb, n - 1)) + (sa + sb);
        { Shuffle(Traffic(ta, n - 1), Traffic(tb, n - 1), sa, sb); }
        (Traffic(ta, n - 1) + sa) + (Traffic(tb, n - 1) + sb);
        Traffic(a, n) + Traffic(b, n);
      }
    }
  }

  lemma TrafficOfParts(a: seq<MapRequest>, b: seq<MapRequest>, n: nat)
    requires n > 0
    ensures Traffic(a + b, n) == Traffic(TickReqs(a) + TickReqs(b), n - 1) +
            (multiset(TickSends(a, {}, 0, [])) + multiset(TickSends(b, {}, 0, [])))
  {
    TickReqsConcat(a, b);
    TickSplit(a, b);
  }

  lemma ResentConcat(a: seq<MapRequest>, b: seq<MapRequest>, n: nat)
    ensures multiset(Resent(a + b, n)) == multiset(Resent(a, n)) + multiset(Resent(b, n))
  {
    TrafficIs(a + b, n);
    TrafficIs(a, n);
    TrafficIs(b, n);
    TrafficConcat(a, b, n);
  }

  lemma Shuffle<T>(a: multiset<T>, b: multiset<T>, c: multiset<T>, d: multiset<T>)
    ensures (a + b) + (c + d) == (a + c) + (b + d)
  {
  }

  /** Objects age independently: splitting the list splits survivors and traffic. */
  lemma TicksSplit(a: seq<MapRequest>, b: seq<MapRequest>, n: nat)
    ensures Ticks(a + b, n) == Ticks(a, n) + Ticks(b, n)
    ensures multiset(Resent(a + b, n)) == multiset(Resent(a, n)) + multiset(Resent(b, n))
  {
    TicksConcat(a, b, n);
    ResentConcat(a, b, n);
  }

  lemma TickSplit(a: seq<MapRequest>, b: seq<MapRequest>)
    ensures multiset(TickSends(a + b, {}, 0, [])) ==
            multiset(TickSends(a, {}, 0, [])) + multiset(TickSends(b, {}, 0, []))
  {
    TickSendsConcat(a, b, 0, []);
    TickSendsPending(b, |a|, 0, TickSends(a, {}, 0, []));
  }

  function Copies(m: SendMsg, n: nat): seq<SendMsg> { if n == 0 then [] else Copies(m, n - 1) + [m] }

  lemma {:induction false} OneSurvives(o: MapRequest, n: nat)
    requires ReqOk(o)
    ensures Ticks([o], n) == if n <= o.timeout then [o.(timeout := o.timeout - n)] else []
    decreases n
  {
    if n == 0 {
    } else {
      OneTick(o);
      if o.timeout > 0 {
        OneSurvives(o.(timeout := o.timeout - 1), n - 1);
      } else {
        NothingLeft(n - 1);
      }
    }
  }

  lemma {:induction false} OneResent(o: MapRequest, n: nat)
    requires ReqOk(o)
    ensures o.role != Ack && n > o.timeout ==>
      Resent([o], n) == Copies(o.msg.value, if o.timeout == MAP_REQ_TIMEOUT then o.timeout - 1 else o.timeout)
    ensures o.role == Ack ==> Resent([o], n) == []
    decreases n
  {
    if n == 0 {
    } else {
      OneTick(o);
      if o.timeout > 0 {
        OneResent(o.(timeout := o.timeout - 1), n - 1);
      } else {
        NothingLeft(n - 1);
      }
    }
  }

  /** One object left alone: it survives exactly as many ticks as its timeout, is gone
      on the next, and its message goes out once per tick while 0 < timeout < 10. */
  lemma OneObject(o: MapRequest, n: nat)
    requires ReqOk(o)
    ensures Ticks([o], n) == if n <= o.timeout then [o.(timeout := o.timeout - n)] else []
    ensures o.role != Ack && n > o.timeout ==>
      Resent([o], n) == Copies(o.msg.value, if o.timeout == MAP_REQ_TIMEOUT then o.timeout - 1 else o.timeout)
    ensures o.role == Ack ==> Resent([o], n) == []
  {
    OneSurvives(o, n);
    OneResent(o, n);
  }

  lemma OneTick(o: MapRequest)
    requires ReqOk(o)
    ensures TickReqs([o]) == if o.timeout > 0 then [o.(timeout := o.timeout - 1)] else []
    ensures TickSends([o], {}, 0, []) == if Resends(o) then [o.msg.value] else []
  {
    var rest: seq<MapRequest> := [o][1..];
    assert rest == [];
  }

  lemma {:induction false} NothingLeft(n: nat)
    ensures Ticks([], n) == [] && Resent([], n) == []
    decreases n
  {
    if n == 0 {
    } else {
      NothingLeft(n - 1);
    }
  }

  /** An object in the middle of the list ages on its own and adds its own traffic. */
  lemma OneAmongMany(before: seq<MapRequest>, o: MapRequest, after: seq<MapRequest>, n: nat)
    ensures Ticks(before + [o] + after, n) == Ticks(before, n) + Ticks([o], n) + Ticks(after, n)
    ensures multiset(Resent(before + [o] + after, n))
         == multiset(Resent(before + after, n)) + multiset(Resent([o], n))
    ensures Ticks(before + after, n) == Ticks(before, n) + Ticks(after, n)
  {
    TicksSplit(before + [o], after, n);
    TicksSplit(before, [o], n);
    TicksSplit(before, after, n);
  }

  /** A fresh QUERY or ACCEPT object that nobody answers is tracked through ten ticks,
      gone from the eleventh on, and by then was resent exactly nine times. */
  lemma NineRetransmissions(before: seq<MapRequest>, o: MapRequest, after: seq<MapRequest>, n: nat)
    requires ReqOk(o) && o.role != Ack && o.timeout == MAP_REQ_TIMEOUT
    ensures n <= 10 ==>
      Ticks(before + [o] + after, n) == Ticks(before, n) + [o.(timeout := 10 - n)] + Ticks(after, n)
    ensures n >= 11 ==> Ticks(before + [o] + after, n) == Ticks(before + after, n)
    ensures n >= 11 ==>
      multiset(Resent(before + [o] + after, n)) == multiset(Resent(before + after, n)) + multiset(Copies(o.msg.value, 9))
  {
    OneAmongMany(before, o, after, n);
    OneObject(o, n);
  }

  /** A completed object is never sent again and goes with the next tick. */
  lemma CompletedNeverResent(before: seq<MapRequest>, o: MapRequest, after: seq<MapRequest>, n: nat)
    requires ReqOk(o) && o.complete && n > 0
    ensures multiset(Resent(before + [o] + after, n)) == multiset(Resent(before + after, n))
    ensures Ticks(before + [o] + after, n) == Ticks(before + after, n)
  {
    OneAmongMany(before, o, after, n);
    CompletedAlone(o, n);
    assert Ticks(before, n) + [] + Ticks(after, n) == Ticks(before, n) + Ticks(after, n);
  }

  lemma CompletedAlone(o: MapRequest, n: nat)
    requires ReqOk(o) && o.complete && n > 0
    ensures Ticks([o], n) == [] && Resent([o], n) == []
  {
    OneObject(o, n);
    if o.role != Ack { assert Copies(o.msg.value, 0) == []; }
  }

  /** Without input the request list is empty after eleven ticks. */
  lemma {:induction false} DrainsInElevenTicks(rs: seq<MapRequest>, n: nat)
    requires ReqsOk(rs) && n >= 11
    ensures Ticks(rs, n) == []
  {
    if rs == [] {
      NothingLeft(n);
    } else {
      assert rs == [rs[0]] + rs[1..];
      TicksSplit([rs[0]], rs[1..], n);
      assert ReqOk(rs[0]);
      OneObject(rs[0], n);
      assert forall i | 0 <= i < |rs[1..]| :: rs[1..][i] == rs[i + 1];
      DrainsInElevenTicks(rs[1..], n);
    }
  }
}
