/**
 * The port mapper's wire format: a bit-packed first byte, big-endian fields at fixed offsets, and a tail that only
 * requests carry.
 */
module Wire {
  import opened Addresses
  import opened Options
  import opened Bits
  import R = Requests

  const SIZE := 48
  const IP_SIZE := 16
  const MAX_SIZE := 64
  const REQ := 0

  // ---- the first byte ----

  function Magic(ipVer: nat, ver: nat, mt: nat): nat {
    Or(Or(And(ipVer, 0x0F), And(64 * ver, 0xC0)), And(16 * mt, 0x30))
  }

  function IpVerOf(magic: nat): nat { And(magic, 0x0F) }
  function VerOf(magic: nat): nat { Shr(And(magic, 0xC0), 6) }
  function MtOf(magic: nat): nat { Shr(And(magic, 0x30), 4) }

  lemma FieldMasks()
    ensures Mask(0, 4) == 0x0F && Mask(4, 2) == 0x30 && Mask(6, 2) == 0xC0
    ensures Pow2(0) == 1 && Pow2(2) == 4 && Pow2(4) == 16 && Pow2(6) == 64
  {
    MaskValue(0, 4);
    MaskValue(4, 2);
    MaskValue(6, 2);
  }

  lemma OrZeroLeft(x: nat)
    ensures Or(0, x) == x
  {
    OrCommutes(0, x);
    OrZero(x);
  }

  lemma OrHigh(i: nat, v: nat)
    requires i < 16
    ensures Or(i, 64 * v) == i + 64 * v
  {
    Or16(i, 4 * v);
    Or4(0, v);
    OrZeroLeft(v);
    assert i / 16 == 0;
  }

  lemma OrMiddle(i: nat, v: nat, m: nat)
    requires i < 16 && m < 4
    ensures Or(i + 64 * v, 16 * m) == i + 16 * m + 64 * v
  {
    Or16(i + 64 * v, m);
    Quotients(i, 0, v);
    OrCommutes(4 * v, m);
    Or4(m, v);
    assert m / 4 == 0;
    OrZeroLeft(v);
  }

  lemma Quotients(i: nat, m: nat, v: nat)
    requires i < 16 && m < 4
    ensures var b := i + 16 * m + 64 * v; b % 16 == i && b / 16 == m + 4 * v && b / 16 % 4 == m && b / 64 == v
  {
    DivisionUnique(i + 16 * m + 64 * v, 16, m + 4 * v, i);
    DivisionUnique(m + 4 * v, 4, v, m);
    DivisionUnique(i + 16 * m + 64 * v, 64, v, i + 16 * m);
  }

  lemma MagicIs(ipVer: nat, ver: nat, mt: nat)
    ensures Magic(ipVer, ver, mt) == ipVer % 16 + 16 * (mt % 4) + 64 * (ver % 4)
  {
    FieldMasks();
    WriteField(ipVer, 0, 4);
    WriteField(ver, 6, 2);
    WriteField(mt, 4, 2);
    OrHigh(ipVer % 16, ver % 4);
    OrMiddle(ipVer % 16, ver % 4, mt % 4);
  }

  lemma FieldsAre(magic: nat)
    ensures IpVerOf(magic) == magic % 16 && VerOf(magic) == magic / 64 % 4 && MtOf(magic) == magic / 16 % 4
  {
    FieldMasks();
    ReadField(magic, 0, 4);
    ReadField(magic, 6, 2);
    ReadField(magic, 4, 2);
  }

  /** Each field comes back modulo its width. */
  lemma MagicRoundTrip(ipVer: nat, ver: nat, mt: nat)
    ensures var b := Magic(ipVer, ver, mt);
            b < 256 && IpVerOf(b) == ipVer % 16 && VerOf(b) == ver % 4 && MtOf(b) == mt % 4
  {
    MagicIs(ipVer, ver, mt);
    FieldsOfPacked(Magic(ipVer, ver, mt), ipVer % 16, mt % 4, ver % 4);
  }

  lemma FieldsOfPacked(b: nat, i: nat, m: nat, v: nat)
    requires b == i + 16 * m + 64 * v && i < 16 && m < 4 && v < 4
    ensures b < 256 && IpVerOf(b) == i && VerOf(b) == v && MtOf(b) == m
  {
    FieldsAre(b);
    Quotients(i, m, v);
  }

  lemma Recomposed(b: Byte)
    ensures b % 16 % 16 + 16 * (b / 16 % 4 % 4) + 64 * (b / 64 % 4 % 4) == b
  {
    assert b / 16 / 4 == b / 64;
  }

  lemma MagicOnto(b: Byte)
    ensures Magic(IpVerOf(b), VerOf(b), MtOf(b)) == b
  {
    FieldsAre(b);
    Recomposed(b);
    MagicIs(IpVerOf(b), VerOf(b), MtOf(b));
  }

  // ---- messages ----

  /** A port and an IP address as the bytes of the wire, in network order. */
  datatype Peer = Peer(port: seq<Byte>, ip: seq<Byte>)

  const NOBODY := Peer([0, 0], BigEndian(0, IP_SIZE))

  datatype Parms = Parms(ipVer: nat, ver: nat, mt: nat, pmtime: Byte, ap: Peer, cp: Peer, mapped: Peer, handle: nat)

  predicate PeerOk(p: Peer) { |p.port| == 2 && |p.ip| == IP_SIZE }

  predicate ParmsOk(p: Parms) {
    PeerOk(p.ap) && PeerOk(p.cp) && PeerOk(p.mapped) && p.handle < Pow256(8)
  }

  function Tail(p: Parms): Peer { if p.mt == REQ then p.mapped else NOBODY }

  /** The fields at their offsets. */
  function Layout(magic: Byte, pmtime: Byte, ap: Peer, cp: Peer, mapped: Peer, handle: seq<Byte>): (b: seq<Byte>)
    requires PeerOk(ap) && PeerOk(cp) && PeerOk(mapped) && |handle| == 8
    ensures |b| == MAX_SIZE
  {
    [magic, pmtime] + mapped.port + ap.port + cp.port + handle + cp.ip + ap.ip + mapped.ip
  }

  function Encode(p: Parms): (b: seq<Byte>)
    requires ParmsOk(p)
    ensures |b| == MAX_SIZE
  {
    MagicRoundTrip(p.ipVer, p.ver, p.mt);
    Layout(Magic(p.ipVer, p.ver, p.mt), p.pmtime, p.ap, p.cp, Tail(p), BigEndian(p.handle, 8))
  }

  /** `stale` is what the caller's mapped fields held before; only a request overwrites them. */
  function Decode(b: seq<Byte>, stale: Peer): Option<Parms>
    requires |b| == MAX_SIZE
  {
    var ipVer, ver, mt := IpVerOf(b[0]), VerOf(b[0]), MtOf(b[0]);
    if ipVer != 4 && ipVer != 6 then None
    else Some(Parms(ipVer, ver, mt, b[1], Peer(b[4..6], b[32..48]), Peer(b[6..8], b[16..32]),
                    if mt == REQ then Peer(b[2..4], b[48..64]) else stale, FromBigEndian(b[8..16])))
  }

  lemma Parts(magic: Byte, pmtime: Byte, ap: Peer, cp: Peer, mapped: Peer, handle: seq<Byte>)
    requires PeerOk(ap) && PeerOk(cp) && PeerOk(mapped) && |handle| == 8
    ensures var b := Layout(magic, pmtime, ap, cp, mapped, handle);
            && b[0] == magic && b[1] == pmtime
            && b[2..4] == mapped.port && b[4..6] == ap.port && b[6..8] == cp.port && b[8..16] == handle
            && b[16..32] == cp.ip && b[32..48] == ap.ip && b[48..64] == mapped.ip
  {
  }

  lemma LaidOut(b: seq<Byte>)
    requires |b| == MAX_SIZE
    ensures b == Layout(b[0], b[1], Peer(b[4..6], b[32..48]), Peer(b[6..8], b[16..32]), Peer(b[2..4], b[48..64]), b[8..16])
  {
  }

  /** What parsing makes of a formed message, whatever its parameters: every field modulo its width. */
  lemma RoundTrip(p: Parms, stale: Peer)
    requires ParmsOk(p)
    ensures Decode(Encode(p), stale) ==
            if p.ipVer % 16 != 4 && p.ipVer % 16 != 6 then None
            else Some(p.(ipVer := p.ipVer % 16, ver := p.ver % 4, mt := p.mt % 4,
                         mapped := if p.mt % 4 == REQ then Tail(p) else stale))
  {
    MagicRoundTrip(p.ipVer, p.ver, p.mt);
    Parts(Magic(p.ipVer, p.ver, p.mt), p.pmtime, p.ap, p.cp, Tail(p), BigEndian(p.handle, 8));
    FromBigEndianInverts(p.handle, 8);
  }

  predicate Fits(p: Parms) { (p.ipVer == 4 || p.ipVer == 6) && p.ver < 4 && p.mt < 4 }

  lemma FitsIff(p: Parms)
    ensures Fits(p) <==>
      && (p.ipVer % 16 == 4 || p.ipVer % 16 == 6)
      && p.ipVer % 16 == p.ipVer && p.ver % 4 == p.ver && p.mt % 4 == p.mt
  {
  }

  /** A formed message is read back exactly when its parameters fit their fields. */
  lemma ReadBackIff(p: Parms, stale: Peer)
    requires ParmsOk(p)
    ensures Decode(Encode(p), stale) == Some(p.(mapped := if p.mt == REQ then p.mapped else stale)) <==> Fits(p)
  {
    RoundTrip(p, stale);
    FitsIff(p);
  }

  /** A message with the fields that only requests carry set to zero, unless it is one. */
  function Cleared(b: seq<Byte>): (c: seq<Byte>)
    requires |b| == MAX_SIZE
    ensures |c| == MAX_SIZE
  {
    if MtOf(b[0]) == REQ then b
    else Layout(b[0], b[1], Peer(b[4..6], b[32..48]), Peer(b[6..8], b[16..32]), NOBODY, b[8..16])
  }

  /** Every message that parses is the one that its parameters form. */
  lemma ParsedIsFormed(b: seq<Byte>, stale: Peer)
    requires |b| == MAX_SIZE && PeerOk(stale) && Decode(b, stale).Some?
    ensures ParmsOk(Decode(b, stale).value) && Encode(Decode(b, stale).value) == Cleared(b)
  {
    var p := Decode(b, stale).value;
    BigEndianInverts(b[8..16]);
    MagicOnto(b[0]);
    LaidOut(b);
  }

  /** Where each field is in a formed message. */
  lemma Offsets(p: Parms)
    requires ParmsOk(p)
    ensures var b := Encode(p);
      && b[0] == p.ipVer % 16 + 16 * (p.mt % 4) + 64 * (p.ver % 4) && b[1] == p.pmtime
      && b[2..4] == (if p.mt == 0 then p.mapped.port else [0, 0])
      && b[4..6] == p.ap.port && b[6..8] == p.cp.port
      && b[16..32] == p.cp.ip && b[32..48] == p.ap.ip
      && b[48..64] == (if p.mt == 0 then p.mapped.ip else seq(16, _ => 0))
  {
    MagicIs(p.ipVer, p.ver, p.mt);
    Parts(Magic(p.ipVer, p.ver, p.mt), p.pmtime, p.ap, p.cp, Tail(p), BigEndian(p.handle, 8));
    ZeroBytes(16);
  }

  lemma HandleAt(p: Parms, i: nat)
    requires ParmsOk(p) && i < 8
    ensures Pow256(7 - i) > 0 && Encode(p)[8 + i] == p.handle / Pow256(7 - i) % 256
  {
    MagicRoundTrip(p.ipVer, p.ver, p.mt);
    Parts(Magic(p.ipVer, p.ver, p.mt), p.pmtime, p.ap, p.cp, Tail(p), BigEndian(p.handle, 8));
    assert Encode(p)[8 + i] == Encode(p)[8..16][i];
    BigEndianAt(p.handle, 8, i);
  }

  // ---- datagrams ----

  function Length(mt: nat): nat { if mt == REQ then MAX_SIZE else SIZE }

  function Datagram(p: Parms): seq<Byte>
    requires ParmsOk(p)
  {
    Encode(p)[..Length(p.mt)]
  }

  /** What is received of a datagram into a buffer that already held `buffer`. */
  function Receive(d: seq<Byte>, buffer: seq<Byte>, stale: Peer): Option<Parms>
    requires |buffer| == MAX_SIZE
  {
    var n := if |d| < MAX_SIZE then |d| else MAX_SIZE;
    if n != SIZE && n != MAX_SIZE then None else Decode(d[..n] + buffer[n..], stale)
  }

  /** A message sent at its own length arrives whole, whatever the receive buffer held. */
  lemma Carried(p: Parms, buffer: seq<Byte>, stale: Peer)
    requires ParmsOk(p) && Fits(p) && |buffer| == MAX_SIZE
    ensures Receive(Datagram(p), buffer, stale) == Some(p.(mapped := if p.mt == REQ then p.mapped else stale))
  {
    ReadBackIff(p, stale);
    var b, d := Encode(p), Datagram(p);
    var c := d[..|d|] + buffer[|d|..];
    if p.mt == REQ {
      assert c == b;
    } else {
      MagicRoundTrip(p.ipVer, p.ver, p.mt);
      DecodeIgnoresTail(b, c, stale);
    }
  }

  lemma DecodeIgnoresTail(b: seq<Byte>, c: seq<Byte>, stale: Peer)
    requires |b| == |c| == MAX_SIZE && b[..48] == c[..48] && MtOf(b[0]) != REQ
    ensures Decode(b, stale) == Decode(c, stale)
  {
    assert b[0] == b[..48][0] == c[0] && b[1] == b[..48][1] == c[1];
    assert b[4..6] == b[..48][4..6] == c[4..6] && b[6..8] == b[..48][6..8] == c[6..8];
    assert b[8..16] == b[..48][8..16] == c[8..16];
    assert b[16..32] == b[..48][16..32] == c[16..32] && b[32..48] == b[..48][32..48] == c[32..48];
  }

  /** A short request: it parses, but its mapped address is what the buffer held. */
  predicate ShortRequest(d: seq<Byte>) {
    |d| == SIZE && MtOf(d[0]) == REQ && (IpVerOf(d[0]) == 4 || IpVerOf(d[0]) == 6)
  }

  /** What is received depends on the datagram alone exactly when it is not a short request. */
  lemma DependsOnDatagramIff(d: seq<Byte>, stale: Peer)
    ensures (forall b, c | |b| == |c| == MAX_SIZE :: Receive(d, b, stale) == Receive(d, c, stale)) <==> !ShortRequest(d)
  {
    if ShortRequest(d) {
      var b, c := BigEndian(0, MAX_SIZE), BigEndian(1, MAX_SIZE);
      BufferShows(d, b, stale);
      BufferShows(d, c, stale);
      assert b[MAX_SIZE - 1] != c[MAX_SIZE - 1];
      assert b[SIZE..][15] != c[SIZE..][15];
    } else {
      forall b: seq<Byte>, c: seq<Byte> | |b| == |c| == MAX_SIZE ensures Receive(d, b, stale) == Receive(d, c, stale) {
        SameReceived(d, b, c, stale);
      }
    }
  }

  lemma BufferShows(d: seq<Byte>, b: seq<Byte>, stale: Peer)
    requires ShortRequest(d) && |b| == MAX_SIZE
    ensures Receive(d, b, stale).Some? && Receive(d, b, stale).value.mapped.ip == b[SIZE..]
  {
    assert (d + b[SIZE..])[SIZE..MAX_SIZE] == b[SIZE..];
    assert d[..SIZE] == d;
  }

  lemma SameReceived(d: seq<Byte>, b: seq<Byte>, c: seq<Byte>, stale: Peer)
    requires !ShortRequest(d) && |b| == |c| == MAX_SIZE
    ensures Receive(d, b, stale) == Receive(d, c, stale)
  {
    if |d| == SIZE {
      var x, y := d[..SIZE] + b[SIZE..], d[..SIZE] + c[SIZE..];
      if MtOf(d[0]) != REQ { DecodeIgnoresTail(x, y, stale); }
    } else if |d| >= MAX_SIZE {
      assert d[..MAX_SIZE] + b[MAX_SIZE..] == d[..MAX_SIZE] + c[MAX_SIZE..];
    }
  }

  // ---- the messages the daemons reason about ----

  function Code(mt: R.MsgType): nat { match mt case MtReq => 0 case MtAcc => 1 case MtAck => 2 case MtRej => 3 }

  function TypeOf(mt: nat): R.MsgType { match mt case 0 => R.MtReq case 1 => R.MtAcc case 2 => R.MtAck case _ => R.MtRej }

  function FamilyFor(ipVer: nat): Family { if ipVer == 4 then Inet else Inet6 }

  function IpLength(f: Family): nat { if f == Inet then 4 else IP_SIZE }

  function EndpointOf(f: Family, p: Peer): Endpoint
    requires PeerOk(p)
  {
    Endpoint(FromBigEndian(p.ip[..IpLength(f)]), FromBigEndian(p.port))
  }

  /** The message that parsed parameters stand for. */
  function View(p: Parms): R.WireMsg
    requires ParmsOk(p)
  {
    var f := FamilyFor(p.ipVer);
    R.WireMsg(TypeOf(p.mt), f, EndpointOf(f, p.ap), EndpointOf(f, p.cp),
              if p.mt == REQ then EndpointOf(f, p.mapped) else R.NOWHERE, p.handle)
  }

  predicate EndpointOk(f: Family, e: Endpoint) { e.ip < Pow256(IpLength(f)) && e.port < Pow256(2) }

  predicate MsgOk(m: R.WireMsg) {
    && EndpointOk(m.family, m.ap) && EndpointOk(m.family, m.cp) && EndpointOk(m.family, m.mappedCp)
    && m.handle < Pow256(8) && (m.mt != R.MtReq ==> m.mappedCp == R.NOWHERE)
  }

  /** The bytes of an endpoint; an IPv4 address leaves the last twelve to `pad`. */
  function PeerFor(f: Family, e: Endpoint, pad: seq<Byte>): (p: Peer)
    requires |pad| == IP_SIZE - 4
    ensures PeerOk(p)
  {
    Peer(BigEndian(e.port, 2), if f == Inet then BigEndian(e.ip, 4) + pad else BigEndian(e.ip, IP_SIZE))
  }

  lemma PeerCarries(f: Family, e: Endpoint, pad: seq<Byte>)
    requires |pad| == IP_SIZE - 4 && EndpointOk(f, e)
    ensures EndpointOf(f, PeerFor(f, e, pad)) == e
  {
    FromBigEndianInverts(e.port, 2);
    FromBigEndianInverts(e.ip, IpLength(f));
    assert PeerFor(f, e, pad).ip[..IpLength(f)] == BigEndian(e.ip, IpLength(f));
  }

  function ParmsFor(m: R.WireMsg, ver: nat, pmtime: Byte, pad: seq<Byte>): (p: Parms)
    requires MsgOk(m) && |pad| == IP_SIZE - 4
    ensures ParmsOk(p)
  {
    Parms(if m.family == Inet then 4 else 6, ver, Code(m.mt), pmtime, PeerFor(m.family, m.ap, pad),
          PeerFor(m.family, m.cp, pad), PeerFor(m.family, m.mappedCp, pad), m.handle)
  }

  /** Every message a daemon sends is the message its peer parses. */
  lemma MessageCarried(m: R.WireMsg, ver: nat, pmtime: Byte, pad: seq<Byte>, buffer: seq<Byte>, stale: Peer)
    requires MsgOk(m) && ver < 4 && |pad| == IP_SIZE - 4 && |buffer| == MAX_SIZE && PeerOk(stale)
    ensures var r := Receive(Datagram(ParmsFor(m, ver, pmtime, pad)), buffer, stale);
            r.Some? && ParmsOk(r.value) && View(r.value) == m
  {
    Carried(ParmsFor(m, ver, pmtime, pad), buffer, stale);
    PeerCarries(m.family, m.ap, pad);
    PeerCarries(m.family, m.cp, pad);
    PeerCarries(m.family, m.mappedCp, pad);
  }

  /** The first byte tells the IP version and the type of a message; a request is sent with 64 bytes, the others
      with 48. */
  lemma TypesOnTheWire(m: R.WireMsg, ver: nat, pmtime: Byte, pad: seq<Byte>)
    requires MsgOk(m) && |pad| == IP_SIZE - 4
    ensures var d := Datagram(ParmsFor(m, ver, pmtime, pad));
      && |d| == (if m.mt == R.MtReq then 64 else 48)
      && d[0] % 16 == (if m.family == Inet then 4 else 6)
      && d[0] / 16 % 4 == (match m.mt case MtReq => 0 case MtAcc => 1 case MtAck => 2 case MtRej => 3)
  {
    TypeByte(ParmsFor(m, ver, pmtime, pad));
  }

  lemma TypeByte(p: Parms)
    requires ParmsOk(p) && p.ipVer < 16 && p.mt < 4
    ensures var d := Datagram(p);
      |d| == (if p.mt == 0 then 64 else 48) && d[0] % 16 == p.ipVer && d[0] / 16 % 4 == p.mt
  {
    Offsets(p);
    Small(p.ipVer, 16);
    Small(p.mt, 4);
    Quotients(p.ipVer, p.mt, p.ver % 4);
  }

  /** The answer to a message that fits the wire fits it, too. */
  lemma AnswerFits(m: R.WireMsg, mt: R.MsgType, ap: Endpoint)
    requires MsgOk(m) && EndpointOk(m.family, ap) && mt != R.MtReq
    ensures MsgOk(R.Form(mt, m.(ap := ap)))
  {
    ZeroFits(m.family);
  }

  lemma ZeroFits(f: Family)
    ensures EndpointOk(f, R.NOWHERE)
  {
    BigEndianInverts(BigEndian(0, IpLength(f)));
  }

  // ---- forming and parsing in place ----

  class MsgParms {
    var ipVer: nat
    var family: Option<Family>
    var ver: nat
    var mt: nat
    var pmtime: Byte
    var ap: Peer
    var cp: Peer
    var mapped: Peer
    var handle: nat
    var msize: nat

    function Value(): Parms
      reads this
    {
      Parms(ipVer, ver, mt, pmtime, ap, cp, mapped, handle)
    }
  }

  method Store(buf: array<Byte>, at: nat, bytes: seq<Byte>)
    requires at + |bytes| <= buf.Length
    modifies buf
    ensures forall i | 0 <= i < buf.Length ::
              buf[i] == if at <= i < at + |bytes| then bytes[i - at] else old(buf[i])
  {
    for k := 0 to |bytes|
      invariant forall i | 0 <= i < buf.Length ::
                  buf[i] == if at <= i < at + k then bytes[i - at] else old(buf[i])
    {
      buf[at + k] := bytes[k];
    }
  }

  method PackMagic(parms: MsgParms) returns (b: Byte)
    ensures b == Magic(parms.ipVer, parms.ver, parms.mt)
  {
    MagicRoundTrip(parms.ipVer, parms.ver, parms.mt);
    var magic := And(parms.ipVer, 0x0F);
    magic := Or(magic, And(64 * parms.ver, 0xC0));
    magic := Or(magic, And(16 * parms.mt, 0x30));
    return magic;
  }

  method StoreHead(pm: array<Byte>, parms: MsgParms)
    requires pm.Length == MAX_SIZE
    modifies pm
    ensures pm[0] == Magic(parms.ipVer, parms.ver, parms.mt) && pm[1] == parms.pmtime
    ensures pm[2..4] == NOBODY.port && pm[8..16] == BigEndian(parms.handle, 8) && pm[48..64] == NOBODY.ip
  {
    forall i | 0 <= i < pm.Length { pm[i] := 0; }
    ZeroBytes(IP_SIZE);
    pm[1] := parms.pmtime;
    Store(pm, 8, BigEndian(parms.handle, 8));
    pm[0] := PackMagic(parms);
  }

  lemma {:induction false} ZeroBytes(n: nat)
    ensures BigEndian(0, n) == seq(n, _ => 0)
  {
    if n == 0 {
    } else {
      ZeroBytes(n - 1);
    }
  }

  method StorePeers(pm: array<Byte>, parms: MsgParms)
    requires pm.Length == MAX_SIZE && PeerOk(parms.ap) && PeerOk(parms.cp)
    modifies pm
    ensures pm[0] == old(pm[0]) && pm[1] == old(pm[1]) && pm[2..4] == old(pm[2..4])
    ensures pm[4..6] == parms.ap.port && pm[6..8] == parms.cp.port && pm[8..16] == old(pm[8..16])
    ensures pm[16..32] == parms.cp.ip && pm[32..48] == parms.ap.ip && pm[48..64] == old(pm[48..64])
  {
    Store(pm, 4, parms.ap.port);
    Store(pm, 6, parms.cp.port);
    Store(pm, 32, parms.ap.ip);
    Store(pm, 16, parms.cp.ip);
  }

  method StoreMapped(pm: array<Byte>, parms: MsgParms)
    requires pm.Length == MAX_SIZE && PeerOk(parms.mapped)
    modifies pm
    ensures pm[0] == old(pm[0]) && pm[1] == old(pm[1]) && pm[2..4] == parms.mapped.port
    ensures pm[4..6] == old(pm[4..6]) && pm[6..8] == old(pm[6..8]) && pm[8..16] == old(pm[8..16])
    ensures pm[16..32] == old(pm[16..32]) && pm[32..48] == old(pm[32..48]) && pm[48..64] == parms.mapped.ip
  {
    Store(pm, 2, parms.mapped.port);
    Store(pm, 48, parms.mapped.ip);
  }

  lemma Assembled(pm: array<Byte>, p: Parms)
    requires pm.Length == MAX_SIZE && ParmsOk(p)
    requires pm[0] == Magic(p.ipVer, p.ver, p.mt) && pm[1] == p.pmtime && pm[2..4] == Tail(p).port
    requires pm[4..6] == p.ap.port && pm[6..8] == p.cp.port && pm[8..16] == BigEndian(p.handle, 8)
    requires pm[16..32] == p.cp.ip && pm[32..48] == p.ap.ip && pm[48..64] == Tail(p).ip
    ensures pm[..] == Encode(p)
  {
    var b := pm[..];
    LaidOut(b);
    assert b[2..4] == pm[2..4] && b[4..6] == pm[4..6] && b[6..8] == pm[6..8] && b[8..16] == pm[8..16];
    assert b[16..32] == pm[16..32] && b[32..48] == pm[32..48] && b[48..64] == pm[48..64];
  }

  /** Fills the message field by field from the parameters. */
  method FormMsg(pm: array<Byte>, parms: MsgParms)
    requires pm.Length == MAX_SIZE && ParmsOk(parms.Value())
    modifies pm
    ensures pm[..] == Encode(parms.Value())
  {
    MagicRoundTrip(parms.ipVer, parms.ver, parms.mt);
    StoreHead(pm, parms);
    StorePeers(pm, parms);
    if parms.mt == REQ { StoreMapped(pm, parms); }
    Assembled(pm, parms.Value());
  }

  /** Forms a message of one type, at the length that type is sent with. */
  method Form(pm: array<Byte>, parms: MsgParms, mt: R.MsgType)
    requires pm.Length == MAX_SIZE && ParmsOk(parms.Value())
    modifies pm, parms`mt, parms`msize
    ensures parms.Value() == old(parms.Value()).(mt := Code(mt)) && parms.msize == Length(Code(mt))
    ensures pm[..] == Encode(parms.Value())
  {
    parms.mt := Code(mt);
    parms.msize := if mt == R.MtReq then SIZE + IP_SIZE else SIZE;
    FormMsg(pm, parms);
  }

  /** Reads the parameters out of a message; an IP version other than 4 and 6 is refused. */
  method Parse(pm: array<Byte>, parms: MsgParms) returns (ok: bool)
    requires pm.Length == MAX_SIZE
    modifies parms
    ensures ok <==> Decode(pm[..], old(parms.mapped)).Some?
    ensures ok ==> Some(parms.Value()) == Decode(pm[..], old(parms.mapped))
    ensures ok ==> parms.family == Some(FamilyFor(parms.ipVer))
  {
    parms.pmtime := pm[1];
    parms.handle := FromBigEndian(pm[8..16]);
    parms.ipVer := IpVerOf(pm[0]);
    if parms.ipVer == 4 {
      parms.family := Some(Inet);
    } else if parms.ipVer == 6 {
      parms.family := Some(Inet6);
    } else {
      return false;
    }
    parms.ver := VerOf(pm[0]);
    parms.mt := MtOf(pm[0]);
    parms.ap := Peer(pm[4..6], pm[32..48]);
    parms.cp := Peer(pm[6..8], pm[16..32]);
    if parms.mt == REQ { parms.mapped := Peer(pm[2..4], pm[48..64]); }
    return true;
  }
}
