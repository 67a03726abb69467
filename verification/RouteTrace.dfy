/**
 * The unicast route tracer: it walks from a port towards a destination LID, hop by hop, reading each switch's
 * linear forwarding table over directed routes.
 */
module RouteTrace {
  import opened Bits
  import opened Options

  type Route = seq<Byte>

  const MAXHOPS := 63
  const PATH_SIZE := 64

  datatype Kind = Ca | Switch | Router | OtherKind

  /** A place a directed route can end: a node, entered at one of its ports. */
  datatype Loc = Loc(node: nat, port: Byte)

  /** What the node-info and port-info attributes of a place say. */
  datatype Reading = Reading(kind: Kind, numPorts: Byte, guid: nat, portNum: Byte, state: nat)

  const BLANK := Reading(OtherKind, 0, 0, 0, 0)

  datatype SwitchInfo = SwitchInfo(cap: nat, top: nat, enhanced: bool)

  /** Any fabric: cables, what each place answers (or not), and the 64-entry blocks of each forwarding table. */
  datatype Fabric = Fabric(home: Loc, cable: (nat, Byte) -> Option<Loc>, read: Loc -> Option<Reading>,
                           info: nat -> Option<SwitchInfo>, fdb: (nat, nat, nat) -> Option<Byte>)

  function Where(f: Fabric, route: Route): Option<Loc> {
    if route == [] then Some(f.home)
    else
      match Where(f, route[..|route| - 1])
      case None => None
      case Some(at) => f.cable(at.node, route[|route| - 1])
  }

  function ReadAt(f: Fabric, route: Route): Option<Reading> {
    match Where(f, route) case None => None case Some(at) => f.read(at)
  }

  /** The switch's own description and its output port for `lid`. */
  function Lookup(f: Fabric, route: Route, lid: nat): Option<(SwitchInfo, Byte)> {
    match Where(f, route)
    case None => None
    case Some(at) =>
      match f.info(at.node)
      case None => None
      case Some(si) =>
        if lid >= si.cap && lid > si.top then None
        else match f.fdb(at.node, lid / 64, lid % 64) case None => None case Some(p) => Some((si, p))
  }

  /** One trace: where it starts, what was read there, the destination's LID and port GUID. */
  datatype Trace = Trace(f: Fabric, lid: nat, start: Route, from: Reading, target: nat)

  /** A stop of the trace; `inside` says that it was entered through a switch's own port 0. */
  datatype Stop = Stop(route: Route, port: Reading, inside: bool)

  predicate Inactive(port: Reading, enhanced: bool) {
    port.state != 4 && (port.kind != Switch || enhanced)
  }

  /** A stop that lets the trace go on: its port is active and a switch has an entry for the destination. */
  predicate Ready(t: Trace, s: Stop) {
    if s.port.kind == Switch then
      match Lookup(t.f, s.route, t.lid)
      case None => false
      case Some((si, out)) => out <= s.port.numPorts && !Inactive(s.port, si.enhanced)
    else
      !Inactive(s.port, false)
  }

  /** The stop after `s`, if it can be reached. */
  function Onward(t: Trace, s: Stop): Option<Stop> {
    match s.port.kind
    case Switch =>
      (match Lookup(t.f, s.route, t.lid)
       case None => None
       case Some((_, out)) =>
         if |s.route| + 2 >= PATH_SIZE then None
         else
           match ReadAt(t.f, s.route + [out])
           case None => None
           case Some(r) => Some(Stop(s.route + [out], r, out == 0)))
    case OtherKind => None
    case _ =>
      if s.port.guid != t.from.guid then None
      else if s.route != [] then
        var n := |s.route| - 1;
        match ReadAt(t.f, s.route[..n])
        case None => None
        case Some(r) => Some(Stop(s.route[..n], r.(portNum := s.route[n]), false))
      else
        var out := if s.port.portNum == 0 then [] else [s.port.portNum];
        match ReadAt(t.f, out)
        case None => None
        case Some(r) => Some(Stop(out, r, false))
  }

  predicate AtTarget(t: Trace, s: Stop) { s.port.guid == t.target }

  /** The stop after `n` hops, if the trace gets that far without passing the target. */
  function Nth(t: Trace, n: nat): Option<Stop> {
    if n == 0 then Some(Stop(t.start, t.from, false))
    else
      match Nth(t, n - 1)
      case None => None
      case Some(s) => if AtTarget(t, s) || s.inside || !Ready(t, s) then None else Onward(t, s)
  }

  /** The walk along the forwarding tables ends at the target after `n` hops. */
  predicate Arrives(t: Trace, n: nat) {
    match Nth(t, n)
    case None => false
    case Some(s) => AtTarget(t, s) && (s.inside || Ready(t, s))
  }

  /** The hops the loop has time for: the last one only into a switch's own port. */
  predicate InTime(t: Trace, n: nat) {
    n < MAXHOPS - 1 || (n == MAXHOPS - 1 && Nth(t, n).Some? && Nth(t, n).value.inside)
  }

  // ---- the walk ----

  lemma {:induction false} NthGone(t: Trace, k: nat, n: nat)
    requires k <= n && Nth(t, k) == None
    ensures Nth(t, n) == None
    decreases n
  {
    if k == n {
    } else {
      NthGone(t, k, n - 1);
    }
  }

  lemma NthEarlier(t: Trace, k: nat, n: nat)
    requires k < n && Nth(t, n).Some?
    ensures Nth(t, k).Some? && !AtTarget(t, Nth(t, k).value) && !Nth(t, k).value.inside && Ready(t, Nth(t, k).value)
    ensures Nth(t, k + 1) == Onward(t, Nth(t, k).value)
  {
    if Nth(t, k + 1) == None { NthGone(t, k + 1, n); }
  }

  /** The target is reached after one number of hops only. */
  lemma ArrivesOnce(t: Trace, m: nat, n: nat)
    requires Arrives(t, m) && Arrives(t, n)
    ensures m == n
  {
    if m < n { NthEarlier(t, m, n); }
    if n < m { NthEarlier(t, n, m); }
  }

  /** What the stops read is what the fabric answers at their routes; only a port number seen from behind differs. */
  lemma {:induction false} NthReads(t: Trace, n: nat)
    requires ReadAt(t.f, t.start) == Some(t.from) && Nth(t, n).Some?
    ensures ReadAt(t.f, Nth(t, n).value.route).Some?
    ensures ReadAt(t.f, Nth(t, n).value.route).value.(portNum := 0) == Nth(t, n).value.port.(portNum := 0)
  {
    if n == 0 {
    } else {
      NthReads(t, n - 1);
    }
  }

  // ---- a trace that succeeds never forwards from the same switch twice ----

  lemma WhereExtended(f: Fabric, a: Route, b: Route, tail: Route)
    requires tail != []
    requires Where(f, a + tail[..|tail| - 1]) == Where(f, b + tail[..|tail| - 1])
    ensures Where(f, a + tail) == Where(f, b + tail)
  {
    var init := tail[..|tail| - 1];
    assert (a + tail)[..|a + tail| - 1] == a + init;
    assert (b + tail)[..|b + tail| - 1] == b + init;
  }

  lemma {:induction false} WhereCongruent(f: Fabric, a: Route, b: Route, tail: Route)
    requires tail != [] && Where(f, a + tail[..1]) == Where(f, b + tail[..1])
    ensures Where(f, a + tail) == Where(f, b + tail)
    decreases |tail|
  {
    if |tail| == 1 {
      assert tail[..1] == tail;
    } else {
      var init := tail[..|tail| - 1];
      assert init[..1] == tail[..1];
      WhereCongruent(f, a, b, init);
      WhereExtended(f, a, b, tail);
    }
  }

  /** The two stops are at one switch, perhaps entered through different ports. */
  predicate SameSwitch(f: Fabric, s: Stop, s': Stop) {
    && s.port.kind == Switch && s'.port.kind == Switch
    && var a, b := Where(f, s.route), Where(f, s'.route);
       a.Some? && b.Some? && a.value.node == b.value.node
  }

  /** The stop shows what the fabric answers there, up to the port number. */
  predicate Faithful(f: Fabric, s: Stop) {
    && ReadAt(f, s.route).Some?
    && ReadAt(f, s.route).value.(portNum := 0) == s.port.(portNum := 0)
  }

  /** `tail` leads to the same places from `a` and from `b`. */
  predicate Parallel(f: Fabric, a: Route, b: Route, tail: Route) {
    tail != [] ==> Where(f, a + tail[..1]) == Where(f, b + tail[..1])
  }

  lemma ForwardsAlike(t: Trace, s: Stop, s': Stop) returns (out: Byte)
    requires SameSwitch(t.f, s, s') && Onward(t, s).Some? && Onward(t, s').Some?
    ensures Onward(t, s).value.route == s.route + [out] && Onward(t, s').value.route == s'.route + [out]
    ensures Parallel(t.f, s.route, s'.route, [out])
  {
    out := Lookup(t.f, s.route, t.lid).value.1;
    assert [out][..1] == [out];
    assert (s.route + [out])[..|s.route|] == s.route && (s'.route + [out])[..|s'.route|] == s'.route;
  }

  lemma StepsAlike(t: Trace, a: Route, b: Route, tail: Route, s: Stop, s': Stop) returns (tail': Route)
    requires tail != [] && Parallel(t.f, a, b, tail) && s.route == a + tail && s'.route == b + tail
    requires Faithful(t.f, s) && Faithful(t.f, s') && Onward(t, s).Some? && Onward(t, s').Some?
    ensures Onward(t, s).value.route == a + tail' && Onward(t, s').value.route == b + tail'
    ensures Parallel(t.f, a, b, tail')
  {
    WhereCongruent(t.f, a, b, tail);
    if s.port.kind == Switch {
      var out := Lookup(t.f, a + tail, t.lid).value.1;
      tail' := tail + [out];
      assert tail'[..1] == tail[..1];
      assert (a + tail) + [out] == a + tail' && (b + tail) + [out] == b + tail';
    } else {
      tail' := tail[..|tail| - 1];
      assert (a + tail)[..|a + tail| - 1] == a + tail';
      assert (b + tail)[..|b + tail| - 1] == b + tail';
      if tail' != [] { assert tail'[..1] == tail[..1]; }
    }
  }

  predicate Linked(t: Trace, s: Stop, s': Stop) {
    Faithful(t.f, s) && !AtTarget(t, s) && Onward(t, s) == Some(s')
  }

  predicate LinkedAt(t: Trace, ss: seq<Stop>, k: nat)
    requires k < |ss| - 1
  {
    Linked(t, ss[k], ss[k + 1])
  }

  predicate Walk(t: Trace, ss: seq<Stop>) {
    forall k | 0 <= k < |ss| - 1 :: LinkedAt(t, ss, k)
  }

  lemma SamePort(f: Fabric, s: Stop, s': Stop)
    requires Faithful(f, s) && Faithful(f, s') && Where(f, s.route) == Where(f, s'.route)
    ensures s.port.guid == s'.port.guid && s.port.kind == s'.port.kind
  {
  }

  lemma RepeatsHop(t: Trace, ss: seq<Stop>, i: nat, j: nat, p: nat, q: nat) returns (out: Byte)
    requires Walk(t, ss) && i < |ss| - 1 && j < |ss| - 1 && p < |ss| - 1 && q < |ss| - 1
    requires SameSwitch(t.f, ss[i], ss[j]) && ss[p].route == ss[i].route && ss[q].route == ss[j].route
    ensures ss[p + 1].route == ss[i].route + [out] && ss[q + 1].route == ss[j].route + [out]
    ensures Parallel(t.f, ss[i].route, ss[j].route, [out])
  {
    assert LinkedAt(t, ss, i) && LinkedAt(t, ss, j) && LinkedAt(t, ss, p) && LinkedAt(t, ss, q);
    SamePort(t.f, ss[i], ss[p]);
    SamePort(t.f, ss[j], ss[q]);
    out := ForwardsAlike(t, ss[p], ss[q]);
  }

  lemma RepeatsStep(t: Trace, ss: seq<Stop>, a: Route, b: Route, tail: Route, p: nat, q: nat) returns (tail': Route)
    requires Walk(t, ss) && p < |ss| - 1 && q < |ss| - 1
    requires tail != [] && Parallel(t.f, a, b, tail) && ss[p].route == a + tail && ss[q].route == b + tail
    ensures ss[p + 1].route == a + tail' && ss[q + 1].route == b + tail' && Parallel(t.f, a, b, tail')
  {
    assert LinkedAt(t, ss, p) && LinkedAt(t, ss, q);
    tail' := StepsAlike(t, a, b, tail, ss[p], ss[q]);
  }

  /** From the same switch the trace takes the same hops again. */
  lemma {:induction false} Shadow(t: Trace, ss: seq<Stop>, i: nat, j: nat, k: nat) returns (tail: Route)
    requires Walk(t, ss) && i < j && j + k < |ss| && SameSwitch(t.f, ss[i], ss[j])
    ensures ss[i + k].route == ss[i].route + tail && ss[j + k].route == ss[j].route + tail
    ensures Parallel(t.f, ss[i].route, ss[j].route, tail)
    decreases k
  {
    if k == 0 { return []; }
    var before := Shadow(t, ss, i, j, k - 1);
    if before == [] {
      var out := RepeatsHop(t, ss, i, j, i + k - 1, j + k - 1);
      return [out];
    }
    tail := RepeatsStep(t, ss, ss[i].route, ss[j].route, before, i + k - 1, j + k - 1);
  }

  lemma ShadowEnds(t: Trace, ss: seq<Stop>, i: nat, j: nat)
    requires Walk(t, ss) && i < j < |ss| - 1 && Faithful(t.f, ss[|ss| - 1]) && AtTarget(t, ss[|ss| - 1])
    ensures !SameSwitch(t.f, ss[i], ss[j])
  {
    if SameSwitch(t.f, ss[i], ss[j]) {
      var m := i + (|ss| - 1 - j);
      var tail := Shadow(t, ss, i, j, |ss| - 1 - j);
      assert LinkedAt(t, ss, m) && LinkedAt(t, ss, j);
      if tail == [] {
        assert ss[j].route + tail == ss[j].route;
        SamePort(t.f, ss[j], ss[|ss| - 1]);
      } else {
        WhereCongruent(t.f, ss[i].route, ss[j].route, tail);
        SamePort(t.f, ss[m], ss[|ss| - 1]);
      }
    }
  }

  /** A trace that arrives has not forwarded from the same switch twice. */
  lemma NoSwitchTwice(t: Trace, i: nat, j: nat, n: nat)
    requires ReadAt(t.f, t.start) == Some(t.from)
    requires Arrives(t, n) && i < j < n
    ensures Nth(t, i).Some? && Nth(t, j).Some? && !SameSwitch(t.f, Nth(t, i).value, Nth(t, j).value)
  {
    var ss := StopsTo(t, n);
    assert Nth(t, n) == Some(ss[n]);
    ShadowEnds(t, ss, i, j);
    assert Nth(t, i) == Some(ss[i]) && Nth(t, j) == Some(ss[j]);
  }

  lemma {:induction false} StopsTo(t: Trace, n: nat) returns (ss: seq<Stop>)
    requires ReadAt(t.f, t.start) == Some(t.from) && Nth(t, n).Some?
    ensures |ss| == n + 1 && Walk(t, ss) && Faithful(t.f, ss[n])
    ensures forall k: nat | k <= n :: Nth(t, k) == Some(ss[k])
  {
    NthReads(t, n);
    if n == 0 { return [Nth(t, 0).value]; }
    StopBefore(t, n);
    var before := StopsTo(t, n - 1);
    assert Nth(t, n - 1) == Some(before[n - 1]);
    WalkOn(t, before, Nth(t, n).value);
    ss := before + [Nth(t, n).value];
  }

  lemma StopBefore(t: Trace, n: nat)
    requires n > 0 && ReadAt(t.f, t.start) == Some(t.from) && Nth(t, n).Some?
    ensures Nth(t, n - 1).Some? && Linked(t, Nth(t, n - 1).value, Nth(t, n).value)
  {
    NthEarlier(t, n - 1, n);
    NthReads(t, n - 1);
  }

  lemma WalkOn(t: Trace, ss: seq<Stop>, s: Stop)
    requires ss != [] && Walk(t, ss) && Linked(t, ss[|ss| - 1], s)
    ensures Walk(t, ss + [s])
  {
    forall k | 0 <= k < |ss| ensures LinkedAt(t, ss + [s], k) {
      if k < |ss| - 1 { assert LinkedAt(t, ss, k); }
    }
  }

  // ---- the walk, in terms of what the fabric answers ----

  /** The forwarding table of the node, 64 entries to a block, sends `lid` out of port `out`. */
  ghost predicate Sends(f: Fabric, node: nat, lid: nat, out: Byte) {
    exists b: nat, i: nat :: i < 64 && 64 * b + i == lid && f.fdb(node, b, i) == Some(out)
  }

  lemma SendsIs(f: Fabric, node: nat, lid: nat, out: Byte)
    ensures Sends(f, node, lid, out) <==> f.fdb(node, lid / 64, lid % 64) == Some(out)
  {
    if Sends(f, node, lid, out) {
      var b: nat, i: nat :| i < 64 && 64 * b + i == lid && f.fdb(node, b, i) == Some(out);
      assert b == lid / 64 && i == lid % 64;
    }
    assert 64 * (lid / 64) + lid % 64 == lid;
  }

  /** The switch covers `lid` and sends it out of `out`. */
  ghost predicate Forwards(f: Fabric, route: Route, lid: nat, si: SwitchInfo, out: Byte) {
    && Where(f, route).Some?
    && f.info(Where(f, route).value.node) == Some(si) && (lid < si.cap || lid <= si.top)
    && Sends(f, Where(f, route).value.node, lid, out)
  }

  lemma ForwardsIs(f: Fabric, route: Route, lid: nat, si: SwitchInfo, out: Byte)
    ensures Forwards(f, route, lid, si, out) <==> Lookup(f, route, lid) == Some((si, out))
  {
    if Where(f, route).Some? { SendsIs(f, Where(f, route).value.node, lid, out); }
  }

  /** The port is active (state 4), or is a switch's whose port 0 is only a basic one; and a switch forwards `lid`
      through a port it has. */
  ghost predicate Live(t: Trace, s: Stop) {
    if s.port.kind == Switch then
      exists si, out: Byte :: Forwards(t.f, s.route, t.lid, si, out) && out <= s.port.numPorts
        && (s.port.state == 4 || !si.enhanced)
    else s.port.state == 4
  }

  lemma LiveIs(t: Trace, s: Stop)
    ensures Live(t, s) <==> Ready(t, s)
  {
    if s.port.kind == Switch {
      forall si, out: Byte
        ensures Forwards(t.f, s.route, t.lid, si, out) <==> Lookup(t.f, s.route, t.lid) == Some((si, out))
      {
        ForwardsIs(t.f, s.route, t.lid, si, out);
      }
    }
  }

  ghost predicate Reads(f: Fabric, route: Route, port: Reading) {
    Where(f, route).Some? && f.read(Where(f, route).value) == Some(port)
  }

  /** One hop: from a switch through the port its table names; back out of the starting end port along the route that
      led to it; or from the local end port through its own port. */
  ghost predicate Leads(t: Trace, s: Stop, s': Stop) {
    match s.port.kind
    case Switch =>
      && |s'.route| == |s.route| + 1 < PATH_SIZE - 1 && s'.route[..|s.route|] == s.route
      && (exists si :: Forwards(t.f, s.route, t.lid, si, s'.route[|s.route|]))
      && Reads(t.f, s'.route, s'.port) && s'.inside == (s'.route[|s.route|] == 0)
    case OtherKind => false
    case _ =>
      && s.port.guid == t.from.guid && !s'.inside
      && if s.route == [] then
           s'.route == (if s.port.portNum == 0 then [] else [s.port.portNum]) && Reads(t.f, s'.route, s'.port)
         else
           && s.route == s'.route + [s'.port.portNum]
           && exists p :: Reads(t.f, s'.route, s'.port.(portNum := p))
  }

  lemma SwitchHop(t: Trace, s: Stop, s': Stop)
    requires s.port.kind == Switch
    ensures Leads(t, s, s') <==> Onward(t, s) == Some(s')
  {
    forall si, out: Byte
      ensures Forwards(t.f, s.route, t.lid, si, out) <==> Lookup(t.f, s.route, t.lid) == Some((si, out))
    {
      ForwardsIs(t.f, s.route, t.lid, si, out);
    }
    if Leads(t, s, s') {
      assert s'.route == s.route + [s'.route[|s.route|]];
    }
  }

  lemma EndPortHop(t: Trace, s: Stop, s': Stop)
    requires s.port.kind != Switch
    ensures Leads(t, s, s') <==> Onward(t, s) == Some(s')
  {
    if s.port.kind != OtherKind && s.route != [] {
      BackHop(t, s, s');
    }
  }

  lemma BackHop(t: Trace, s: Stop, s': Stop)
    requires s.port.kind != Switch && s.port.kind != OtherKind && s.route != []
    ensures Leads(t, s, s') <==> Onward(t, s) == Some(s')
  {
    var n := |s.route| - 1;
    if Leads(t, s, s') {
      var p :| Reads(t.f, s'.route, s'.port.(portNum := p));
      assert s.route[..n] == s'.route && s.route[n] == s'.port.portNum;
    }
    if Onward(t, s) == Some(s') {
      var r := ReadAt(t.f, s'.route).value;
      assert s'.port.(portNum := r.portNum) == r;
      assert s.route == s'.route + [s.route[n]];
    }
  }

  lemma LeadsIs(t: Trace, s: Stop, s': Stop)
    ensures Leads(t, s, s') <==> Onward(t, s) == Some(s')
  {
    if s.port.kind == Switch { SwitchHop(t, s, s'); } else { EndPortHop(t, s, s'); }
  }

  ghost predicate Passes(t: Trace, s: Stop, s': Stop) {
    s.port.guid != t.target && !s.inside && Live(t, s) && Leads(t, s, s')
  }

  ghost predicate PassesAt(t: Trace, ss: seq<Stop>, k: nat)
    requires 0 < k < |ss|
  {
    Passes(t, ss[k - 1], ss[k])
  }

  ghost predicate Journey(t: Trace, ss: seq<Stop>) {
    && ss != [] && ss[0] == Stop(t.start, t.from, false)
    && forall k | 0 < k < |ss| :: PassesAt(t, ss, k)
  }

  /** A journey from the start to the target, stop by stop. */
  ghost predicate Itinerary(t: Trace, ss: seq<Stop>) {
    && Journey(t, ss)
    && ss[|ss| - 1].port.guid == t.target && (ss[|ss| - 1].inside || Live(t, ss[|ss| - 1]))
  }

  lemma PassesIs(t: Trace, n: nat, s': Stop)
    requires n > 0 && Nth(t, n - 1).Some?
    ensures Passes(t, Nth(t, n - 1).value, s') <==> Nth(t, n) == Some(s')
  {
    LiveIs(t, Nth(t, n - 1).value);
    LeadsIs(t, Nth(t, n - 1).value, s');
  }

  lemma {:induction false} ItineraryStops(t: Trace, ss: seq<Stop>, k: nat)
    requires Itinerary(t, ss) && k < |ss|
    ensures Nth(t, k) == Some(ss[k])
  {
    if k == 0 {
    } else {
      ItineraryStops(t, ss, k - 1);
      assert PassesAt(t, ss, k);
      PassesIs(t, k, ss[k]);
    }
  }

  /** A journey is the walk. */
  lemma ItineraryArrives(t: Trace, ss: seq<Stop>)
    requires Itinerary(t, ss)
    ensures Arrives(t, |ss| - 1) && forall k: nat | k < |ss| :: Nth(t, k) == Some(ss[k])
  {
    forall k: nat | k < |ss| ensures Nth(t, k) == Some(ss[k]) { ItineraryStops(t, ss, k); }
    assert Nth(t, |ss| - 1) == Some(ss[|ss| - 1]);
    LiveIs(t, ss[|ss| - 1]);
  }

  lemma LastPass(t: Trace, n: nat, s: Stop) returns (before: Stop)
    requires n > 0 && Nth(t, n) == Some(s)
    ensures Nth(t, n - 1) == Some(before) && Passes(t, before, s)
  {
    before := Nth(t, n - 1).value;
    PassesIs(t, n, s);
  }

  lemma JourneyOn(t: Trace, ss: seq<Stop>, s: Stop)
    requires Journey(t, ss) && Passes(t, ss[|ss| - 1], s)
    ensures Journey(t, ss + [s])
  {
    forall k | 0 < k <= |ss| ensures PassesAt(t, ss + [s], k) {
      if k < |ss| { assert PassesAt(t, ss, k); }
    }
  }

  lemma {:induction false} StopsOf(t: Trace, n: nat, s: Stop) returns (ss: seq<Stop>)
    requires Nth(t, n) == Some(s)
    ensures |ss| == n + 1 && Journey(t, ss) && ss[n] == s
  {
    if n == 0 {
      ss := [s];
    } else {
      var before := LastPass(t, n, s);
      ss := StopsOf(t, n - 1, before);
      JourneyOn(t, ss, s);
      ss := ss + [s];
    }
  }

  /** The walk is a journey: it arrives after `n` hops if and only if there is one of that length. */
  lemma ArrivesItinerary(t: Trace, n: nat) returns (ss: seq<Stop>)
    requires Arrives(t, n)
    ensures Itinerary(t, ss) && |ss| == n + 1
  {
    ss := StopsOf(t, n, Nth(t, n).value);
    LiveIs(t, ss[n]);
  }

  /** The tracer succeeds if and only if there is a journey of at most 61 hops, or of 62 into a switch's own port. */
  lemma TraceableIff(t: Trace)
    ensures Traceable(t) <==>
      exists ss: seq<Stop> :: Itinerary(t, ss) && (|ss| <= 62 || (|ss| == 63 && ss[62].inside))
  {
    if Traceable(t) {
      var n: nat :| Arrives(t, n) && InTime(t, n);
      var ss := ArrivesItinerary(t, n);
      ItineraryArrives(t, ss);
      assert Nth(t, n) == Some(ss[n]);
    }
    if ss: seq<Stop> :| Itinerary(t, ss) && (|ss| <= 62 || (|ss| == 63 && ss[62].inside)) {
      ItineraryArrives(t, ss);
      assert Nth(t, |ss| - 1) == Some(ss[|ss| - 1]);
      assert InTime(t, |ss| - 1);
    }
  }

  /** The place the walk arrives at answers with the target's port GUID. At every switch on the way it left through
      the port that entry `i` of block `b` of the forwarding table names, with 64 * b + i the destination's LID. */
  lemma RouteSound(t: Trace, n: nat, k: nat)
    requires ReadAt(t.f, t.start) == Some(t.from) && Arrives(t, n)
    ensures ReadAt(t.f, Nth(t, n).value.route).Some? && ReadAt(t.f, Nth(t, n).value.route).value.guid == t.target
    ensures k < n ==> Nth(t, k).Some? && Nth(t, k + 1).Some?
    ensures k < n && Nth(t, k).value.port.kind == Switch ==>
      var here, there := Nth(t, k).value.route, Nth(t, k + 1).value.route;
      exists b: nat, i: nat, out ::
        && Where(t.f, here).Some? && i < 64 && 64 * b + i == t.lid
        && t.f.fdb(Where(t.f, here).value.node, b, i) == Some(out) && there == here + [out]
  {
    NthReads(t, n);
    if k < n {
      NthEarlier(t, k, n);
      if k + 1 < n { NthEarlier(t, k + 1, n); }
      if Nth(t, k).value.port.kind == Switch { ForwardedByEntry(t, Nth(t, k).value); }
    }
  }

  lemma ForwardedByEntry(t: Trace, s: Stop)
    requires s.port.kind == Switch && Onward(t, s).Some?
    ensures exists b: nat, i: nat, out ::
      && Where(t.f, s.route).Some? && i < 64 && 64 * b + i == t.lid
      && t.f.fdb(Where(t.f, s.route).value.node, b, i) == Some(out) && Onward(t, s).value.route == s.route + [out]
  {
    var out := Lookup(t.f, s.route, t.lid).value.1;
    SendsIs(t.f, Where(t.f, s.route).value.node, t.lid, out);
  }

  /** The walk ends at a switch whose tables do not reach up to the destination's LID. */
  lemma BeyondTables(t: Trace, k: nat, s: Stop, si: SwitchInfo)
    requires Nth(t, k) == Some(s) && s.port.kind == Switch && !s.inside
    requires Where(t.f, s.route).Some? && t.f.info(Where(t.f, s.route).value.node) == Some(si)
    requires si.cap <= t.lid && si.top < t.lid
    ensures Nth(t, k + 1) == None && !Traceable(t)
  {
    DeadEnd(t, k, s);
  }

  // ---- a walk of 62 hops arrives and is refused ----

  function Row(): Fabric {
    Fabric(Loc(0, 2), (n: nat, p: Byte) => if p == 1 then Some(Loc(n + 1, 2)) else None,
           (at: Loc) => Some(Reading(Switch, 2, at.node, at.port, 4)),
           (n: nat) => Some(SwitchInfo(100, 100, false)), (n: nat, b: nat, i: nat) => Some(1))
  }

  function RowTrace(): Trace { Trace(Row(), 7, [], Reading(Switch, 2, 0, 2, 4), MAXHOPS - 1) }

  function RowRoute(k: nat): (r: Route)
    ensures |r| == k
  {
    if k == 0 then [] else RowRoute(k - 1) + [1]
  }

  lemma {:induction false} RowWhere(k: nat)
    ensures Where(Row(), RowRoute(k)) == Some(Loc(k, 2))
  {
    if k == 0 {
    } else {
      RowWhere(k - 1);
      assert RowRoute(k)[..k - 1] == RowRoute(k - 1);
    }
  }

  function RowStop(k: nat): Stop { Stop(RowRoute(k), Reading(Switch, 2, k, 2, 4), false) }

  lemma RowStep(k: nat)
    requires k < MAXHOPS - 1
    ensures Ready(RowTrace(), RowStop(k)) && Onward(RowTrace(), RowStop(k)) == Some(RowStop(k + 1))
  {
    RowWhere(k);
    RowWhere(k + 1);
    assert RowRoute(k + 1) == RowRoute(k) + [1];
    assert Lookup(Row(), RowRoute(k), 7) == Some((SwitchInfo(100, 100, false), 1));
    assert ReadAt(Row(), RowRoute(k + 1)) == Some(Reading(Switch, 2, k + 1, 2, 4));
  }

  lemma {:induction false} RowNth(k: nat)
    requires k < MAXHOPS
    ensures Nth(RowTrace(), k) == Some(RowStop(k))
  {
    if k == 0 {
    } else {
      RowNth(k - 1);
      RowStep(k - 1);
    }
  }

  /** Along a row of switches the walk reaches the one 62 hops away, but the loop reports that there is no route. */
  lemma LastHopRefused()
    ensures Arrives(RowTrace(), MAXHOPS - 1) && !Traceable(RowTrace())
  {
    RowNth(MAXHOPS - 1);
    RowWhere(MAXHOPS - 1);
    ArrivedAt(RowTrace(), MAXHOPS - 1);
  }

  // ---- the tracer ----

  /** A directed route in its fixed array: the hops are p[1] to p[cnt]. */
  class DirectedRoute {
    var cnt: nat
    const p: array<Byte>

    ghost predicate Valid()
      reads this
    {
      p.Length == PATH_SIZE && cnt < PATH_SIZE
    }

    ghost function Hops(): Route
      requires Valid()
      reads this, p
    {
      p[1..cnt + 1]
    }

    method Extend(nextport: Byte) returns (ok: bool)
      requires Valid()
      modifies `cnt, p
      ensures Valid() && ok == (|old(Hops())| + 2 < PATH_SIZE)
      ensures Hops() == if ok then old(Hops()) + [nextport] else old(Hops())
    {
      if cnt + 2 >= p.Length { return false; }
      cnt := cnt + 1;
      p[cnt] := nextport;
      return true;
    }
  }

  /** The trace arrives in the time its loop allows. */
  ghost predicate Traceable(t: Trace) {
    exists n: nat :: Arrives(t, n) && InTime(t, n)
  }

  lemma DeadEnd(t: Trace, k: nat, s: Stop)
    requires Nth(t, k) == Some(s)
    requires if AtTarget(t, s) then !s.inside && !Ready(t, s) else s.inside || !Ready(t, s) || Onward(t, s) == None
    ensures !Traceable(t)
  {
    assert Nth(t, k + 1) == None;
    assert !Arrives(t, k);
    forall n: nat ensures !Arrives(t, n) { NotElsewhere(t, k, n); }
  }

  lemma NotElsewhere(t: Trace, k: nat, n: nat)
    requires Nth(t, k).Some? && Nth(t, k + 1) == None
    ensures n != k ==> !Arrives(t, n)
  {
    if n < k { NthEarlier(t, n, k); }
    if n > k { NthGone(t, k + 1, n); }
  }

  lemma OutOfTime(t: Trace)
    requires Nth(t, MAXHOPS).Some?
    ensures !Traceable(t)
  {
    forall n: nat | n < MAXHOPS ensures !Arrives(t, n) {
      NthEarlier(t, n, MAXHOPS);
    }
  }

  lemma ArrivedAt(t: Trace, n: nat)
    requires Arrives(t, n)
    ensures Traceable(t) <==> InTime(t, n)
  {
    forall m: nat | Arrives(t, m) ensures m == n { ArrivesOnce(t, m, n); }
  }

  /** What the loop knows of the port it stands at: a switch has an entry `out`. */
  predicate Known(t: Trace, s: Stop, out: int, enhanced: bool) {
    !s.inside &&
    (s.port.kind == Switch ==>
       match Lookup(t.f, s.route, t.lid)
       case None => false
       case Some((si, o)) => o == out && o <= s.port.numPorts && si.enhanced == enhanced)
  }

  lemma KnownReady(t: Trace, s: Stop, out: int, enhanced: bool)
    requires Known(t, s, out, enhanced)
    ensures Ready(t, s) <==> !Inactive(s.port, enhanced)
  {
  }

  /** One hop of the loop, from a switch through `out` or from the starting end port. */
  method Hop(t: Trace, route: DirectedRoute, port: Reading, out: int, ghost enhanced: bool) returns (next: Option<Reading>)
    requires route.Valid() && port.kind != OtherKind && Known(t, Stop(route.Hops(), port, false), out, enhanced)
    modifies route`cnt, route.p
    ensures route.Valid()
    ensures var to := Onward(t, Stop(old(route.Hops()), port, false));
            && next.Some? == to.Some?
            && (to.Some? ==> to == Some(Stop(route.Hops(), next.value, port.kind == Switch && out == 0)))
  {
    ghost var hops := route.Hops();
    if port.kind == Switch {
      var ok := route.Extend(out);
      if !ok { return None; }
      next := ReadAt(t.f, route.p[1..route.cnt + 1]);
    } else {
      if port.guid != t.from.guid { return None; }
      var back := route.cnt > 0;
      if back {
        route.cnt := route.cnt - 1;
        assert route.Hops() == hops[..|hops| - 1];
      } else if port.portNum != 0 {
        var ok := route.Extend(port.portNum);
        assert ok;
      }
      next := ReadAt(t.f, route.p[1..route.cnt + 1]);
      if back && next.Some? {
        next := Some(next.value.(portNum := route.p[route.cnt + 1]));
      }
    }
  }

  /** At a switch, looks the destination up and refuses an entry beyond the last port. */
  method Enter(t: Trace, route: DirectedRoute, port: Reading, out0: int, enhanced0: bool)
      returns (out: int, enhanced: bool, ok: bool)
    requires route.Valid()
    ensures ok ==> Known(t, Stop(route.Hops(), port, false), out, enhanced)
    ensures !ok ==> port.kind == Switch && !Ready(t, Stop(route.Hops(), port, false))
  {
    out, enhanced, ok := out0, enhanced0, true;
    if port.kind == Switch {
      var entry := Lookup(t.f, route.p[1..route.cnt + 1], t.lid);
      if entry.None? || entry.value.1 > port.numPorts { return out, enhanced, false; }
      out, enhanced := entry.value.1, entry.value.0.enhanced;
    }
  }

  datatype Verdict = Failed | Found | Walking

  /**
   * One round of the loop at the port reached after `k` hops; `last` is the port read most recently, which a node of
   * unknown type leaves in place.
   */
  method Round(t: Trace, route: DirectedRoute, port: Reading, last: Reading, out0: int, enhanced0: bool, ghost k: nat)
      returns (v: Verdict, next: Reading, out: int, enhanced: bool, ghost k': nat)
    requires route.Valid() && (last == port || last == BLANK)
    requires Nth(t, k) == Some(Stop(route.Hops(), port, false)) && Known(t, Stop(route.Hops(), port, false), out0, enhanced0)
    modifies route`cnt, route.p
    ensures route.Valid()
    ensures v == Failed ==> !Traceable(t)
    ensures v == Found ==>
      && Arrives(t, k') && Nth(t, k').value.route == route.Hops() && Nth(t, k').value.inside == (k' == k + 1)
      && ((k' == k && port.guid == t.target) || (k' == k + 1 && port.kind == Switch))
    ensures v == Walking ==>
      && Nth(t, k') == Some(Stop(route.Hops(), next, false))
      && Known(t, Stop(route.Hops(), next, false), out, enhanced)
      && (if port.kind == OtherKind then k' == k && next == port && port.guid != t.target else k' == k + 1)
  {
    v, next, out, enhanced, k' := Failed, last, out0, enhanced0, k;
    ghost var here := Stop(route.Hops(), port, false);
    KnownReady(t, here, out, enhanced);
    if Inactive(port, enhanced) {
      DeadEnd(t, k, here);
    } else if port.guid == t.target {
      v := Found;
    } else {
      v, next, out, enhanced := Leave(t, route, port, last, out, enhanced, k);
      k' := if port.kind == OtherKind then k else k + 1;
    }
  }

  method Leave(t: Trace, route: DirectedRoute, port: Reading, last: Reading, out0: int, enhanced0: bool, ghost k: nat)
      returns (v: Verdict, next: Reading, out: int, enhanced: bool)
    requires route.Valid() && (last == port || last == BLANK) && port.guid != t.target
    requires Nth(t, k) == Some(Stop(route.Hops(), port, false)) && Known(t, Stop(route.Hops(), port, false), out0, enhanced0)
    requires Ready(t, Stop(route.Hops(), port, false))
    modifies route`cnt, route.p
    ensures route.Valid()
    ensures v == Failed ==> !Traceable(t)
    ensures v == Found ==>
      Nth(t, k + 1) == Some(Stop(route.Hops(), next, true)) && Arrives(t, k + 1) && port.kind == Switch
    ensures v == Walking ==> Known(t, Stop(route.Hops(), next, false), out, enhanced)
    ensures v == Walking && port.kind == OtherKind ==> next == port && route.Hops() == old(route.Hops())
    ensures v == Walking && port.kind != OtherKind ==> Nth(t, k + 1) == Some(Stop(route.Hops(), next, false))
  {
    if port.kind == OtherKind {
      DeadEnd(t, k, Stop(route.Hops(), port, false));
      next := last;
      v, out, enhanced := Settle(t, route, next, out0, enhanced0, k + 1);
    } else {
      v, next, out, enhanced := Depart(t, route, port, out0, enhanced0, k);
    }
  }

  /** A hop from a node of known type, and the checks where it ends. */
  method Depart(t: Trace, route: DirectedRoute, port: Reading, out0: int, enhanced0: bool, ghost k: nat)
      returns (v: Verdict, next: Reading, out: int, enhanced: bool)
    requires route.Valid() && port.kind != OtherKind && port.guid != t.target
    requires Nth(t, k) == Some(Stop(route.Hops(), port, false))
    requires Known(t, Stop(route.Hops(), port, false), out0, enhanced0) && Ready(t, Stop(route.Hops(), port, false))
    modifies route`cnt, route.p
    ensures route.Valid()
    ensures v == Failed ==> !Traceable(t)
    ensures v == Found ==>
      Nth(t, k + 1) == Some(Stop(route.Hops(), next, true)) && Arrives(t, k + 1) && port.kind == Switch
    ensures v == Walking ==>
      && Nth(t, k + 1) == Some(Stop(route.Hops(), next, false))
      && Known(t, Stop(route.Hops(), next, false), out, enhanced)
  {
    out, enhanced := out0, enhanced0;
    v, next := Move(t, route, port, out, enhanced, k);
    if v == Walking {
      v, out, enhanced := Settle(t, route, next, out, enhanced, k + 1);
    }
  }

  /** A hop, and its end when it leads into the switch itself. */
  method Move(t: Trace, route: DirectedRoute, port: Reading, out: int, ghost enhanced: bool, ghost k: nat)
      returns (v: Verdict, next: Reading)
    requires route.Valid() && port.kind != OtherKind && port.guid != t.target
    requires Nth(t, k) == Some(Stop(route.Hops(), port, false))
    requires Known(t, Stop(route.Hops(), port, false), out, enhanced) && Ready(t, Stop(route.Hops(), port, false))
    modifies route`cnt, route.p
    ensures route.Valid()
    ensures v == Failed ==> !Traceable(t)
    ensures v == Found ==>
      Nth(t, k + 1) == Some(Stop(route.Hops(), next, true)) && Arrives(t, k + 1) && port.kind == Switch
    ensures v == Walking ==> Nth(t, k + 1) == Some(Stop(route.Hops(), next, false))
  {
    ghost var here := Stop(route.Hops(), port, false);
    var r := Hop(t, route, port, out, enhanced);
    if r.None? {
      DeadEnd(t, k, here);
      return Failed, BLANK;
    }
    next, v := r.value, Walking;
    if port.kind == Switch && out == 0 {
      v := if next.guid == t.target then Found else Failed;
      if v == Failed { DeadEnd(t, k + 1, Stop(route.Hops(), next, true)); }
    }
  }

  /** The checks on the port just read, before the trace stands there. */
  method Settle(t: Trace, route: DirectedRoute, next: Reading, out0: int, enhanced0: bool, ghost k: nat)
      returns (v: Verdict, out: int, enhanced: bool)
    requires route.Valid()
    requires !Traceable(t) || Nth(t, k) == Some(Stop(route.Hops(), next, false))
    ensures v == Failed ==> !Traceable(t)
    ensures v != Found && (v == Walking ==> Known(t, Stop(route.Hops(), next, false), out, enhanced))
    ensures v == Walking ==> !Inactive(next, enhanced)
  {
    var entered;
    out, enhanced, entered := Enter(t, route, next, out0, enhanced0);
    ghost var there := Stop(route.Hops(), next, false);
    if entered { KnownReady(t, there, out, enhanced); }
    v := if entered && !Inactive(next, enhanced) then Walking else Failed;
    if v == Failed && Traceable(t) { DeadEnd(t, k, there); }
  }

  lemma TimeUp(t: Trace, k: nat, s: Stop)
    requires k <= MAXHOPS && Nth(t, k) == Some(s)
    requires k < MAXHOPS ==> s.port.kind == OtherKind && s.port.guid != t.target
    ensures !Traceable(t)
  {
    if k < MAXHOPS { DeadEnd(t, k, s); } else { OutOfTime(t); }
  }

  /** The walk arrives by `route`. */
  ghost predicate ArrivesBy(t: Trace, route: Route) {
    exists n: nat :: Arrives(t, n) && Nth(t, n).value.route == route
  }

  method Pursue(t: Trace, route: DirectedRoute, from: Reading, out0: int, enhanced0: bool) returns (ok: bool)
    requires route.Valid() && Nth(t, 0) == Some(Stop(route.Hops(), from, false))
    requires Known(t, Stop(route.Hops(), from, false), out0, enhanced0)
    modifies route`cnt, route.p
    ensures route.Valid()
    ensures ok <==> Traceable(t)
    ensures ok ==> ArrivesBy(t, route.Hops())
  {
    var port, last, out, enhanced, maxhops := from, BLANK, out0, enhanced0, MAXHOPS;
    ghost var k: nat := 0;
    while true
      invariant route.Valid() && 0 <= maxhops <= MAXHOPS && k <= MAXHOPS - maxhops
      invariant last == port || last == BLANK
      invariant Nth(t, k) == Some(Stop(route.Hops(), port, false))
      invariant Known(t, Stop(route.Hops(), port, false), out, enhanced)
      invariant k < MAXHOPS - maxhops ==> port.kind == OtherKind && port.guid != t.target
      decreases maxhops
    {
      if maxhops == 0 {
        TimeUp(t, k, Stop(route.Hops(), port, false));
        return false;
      }
      maxhops := maxhops - 1;
      var v;
      v, last, out, enhanced, k := Round(t, route, port, last, out, enhanced, k);
      if v == Failed { return false; }
      if v == Found {
        ArrivedAt(t, k);
        return maxhops > 0;
      }
      port := last;
    }
  }

  /**
   * Traces the route, extending `route` in place. It succeeds exactly when the walk along the forwarding tables
   * arrives in time, and then leaves the route of that walk.
   */
  method FindRoute(f: Fabric, route: DirectedRoute, to: Option<Reading>, lid: nat) returns (ok: bool)
    requires route.Valid()
    modifies route`cnt, route.p
    ensures route.Valid()
    ensures to.None? || ReadAt(f, old(route.Hops())).None? ==> !ok
    ensures to.Some? && ReadAt(f, old(route.Hops())).Some? ==>
      var t := Trace(f, lid, old(route.Hops()), ReadAt(f, old(route.Hops())).value, to.value.guid);
      (ok <==> Traceable(t)) && (ok ==> ArrivesBy(t, route.Hops()))
  {
    var from := ReadAt(f, route.p[1..route.cnt + 1]);
    if from.None? || to.None? { return false; }
    var t := Trace(f, lid, route.p[1..route.cnt + 1], from.value, to.value.guid);
    var out, enhanced, entered := Enter(t, route, from.value, 255, false);
    if !entered {
      DeadEnd(t, 0, Stop(route.Hops(), from.value, false));
      return false;
    }
    ok := Pursue(t, route, from.value, out, enhanced);
  }

  // ---- the table of node GUIDs ----

  const TABLE_SIZE := 137

  /** The products and the exclusive or are taken in 32 bits. */
  function Mix(low: nat, high: nat): (h: nat)
    ensures h < TABLE_SIZE
  {
    Xor(low * 101 % 0x1_0000_0000, high * 103 % 0x1_0000_0000) % TABLE_SIZE
  }

  function Hash(guid: nat): (h: nat)
    ensures h < TABLE_SIZE
  {
    Mix(guid % 0x1_0000_0000, guid / 0x1_0000_0000 % 0x1_0000_0000)
  }

  lemma {:induction false} XorZero(x: nat)
    ensures Xor(x, 0) == x && Xor(0, x) == x
  {
    if x == 0 {
    } else {
      XorZero(x / 2);
    }
  }

  /** A GUID in the lower word alone is hashed by its multiple of 101, one in the upper word alone by that of 103. */
  lemma HashOfWord(w: nat)
    requires w * 103 < 0x1_0000_0000
    ensures Hash(w) == w * 101 % 137 && Hash(0x1_0000_0000 * w) == w * 103 % 137
  {
    MixOne(w);
    Small(w, 0x1_0000_0000);
    DivisionUnique(0x1_0000_0000 * w, 0x1_0000_0000, w, 0);
  }

  lemma MixOne(w: nat)
    requires w * 103 < 0x1_0000_0000
    ensures Mix(w, 0) == w * 101 % 137 && Mix(0, w) == w * 103 % 137
  {
    Small(w * 101, 0x1_0000_0000);
    Small(w * 103, 0x1_0000_0000);
    XorZero(w * 101);
    XorZero(w * 103);
  }

  class GuidTable {
    const chains: array<seq<nat>>

    ghost predicate Valid()
      reads chains
    {
      && chains.Length == TABLE_SIZE
      && forall h, i | 0 <= h < TABLE_SIZE && 0 <= i < |chains[h]| ::
           Hash(chains[h][i]) == h && chains[h][i] !in chains[h][..i]
    }

    ghost function Contents(): iset<nat>
      requires Valid()
      reads chains
    {
      iset g | g in chains[Hash(g)]
    }

    /** Links the node in, unless its GUID is there already. */
    method Insert(guid: nat) returns (added: bool)
      requires Valid()
      modifies chains
      ensures Valid()
      ensures added <==> guid !in old(Contents())
      ensures Contents() == old(Contents()) + iset{guid}
    {
      var h := Hash(guid);
      var i := 0;
      while i < |chains[h]|
        invariant i <= |chains[h]| && guid !in chains[h][..i]
      {
        if chains[h][i] == guid { return false; }
        i := i + 1;
      }
      chains[h] := [guid] + chains[h];
      return true;
    }
  }
}
