/** Socket addresses as the port mapper sees them: a family, an IP address and a
    TCP port. Only IPv4 and IPv6 carry an address; any other family is kept as a
    bare number because the comparison helpers treat it as "never equal". */
module Addresses {

  datatype Family = Inet | Inet6

  datatype SockAddr =
    | V4(ip: nat, port: nat)
    | V6(ip: nat, port: nat)
    | Other(family: nat)

  /** An IP address and port outside any sockaddr, as the wire format carries them. */
  datatype Endpoint = Endpoint(ip: nat, port: nat)

  /** The UDP port on which every port mapper listens. */
  const IWARP_PM_PORT: nat := 3935

  function PortOf(a: SockAddr): nat {
    match a
    case V4(_, port) => port
    case V6(_, port) => port
    case Other(_) => 0
  }

  predicate Same(a: SockAddr, b: SockAddr) {
    a == b && !a.Other?
  }

  predicate IsWildcard(a: SockAddr) {
    !a.Other? && a.ip == 0
  }

  predicate SameFamily(a: SockAddr, b: SockAddr) {
    (a.V4? && b.V4?) || (a.V6? && b.V6?) || (a.Other? && b.Other? && a.family == b.family)
  }

  predicate HasFamily(a: SockAddr, f: Family) {
    if f == Inet then a.V4? else a.V6?
  }

  function FamilyOf(a: SockAddr): Family
    requires !a.Other?
  {
    if a.V4? then Inet else Inet6
  }

  function WithPort(a: SockAddr, port: nat): SockAddr {
    match a
    case V4(ip, _) => V4(ip, port)
    case V6(ip, _) => V6(ip, port)
    case Other(_) => a
  }

  /** A sockaddr assembled from wire fields. */
  function ToSockAddr(f: Family, e: Endpoint): SockAddr {
    if f == Inet then V4(e.ip, e.port) else V6(e.ip, e.port)
  }

  /** The fields read from the storage of `a` when it is interpreted as family `f`.
      The port sits at the same offset in both layouts; the IP address does not, so a
      read through the wrong family yields whatever bytes are there, here `junk`. */
  function ReadAs(f: Family, a: SockAddr, junk: Endpoint): Endpoint {
    if HasFamily(a, f) then Endpoint(a.ip, a.port)
    else if a.Other? then junk
    else Endpoint(junk.ip, a.port)
  }

  /** Two local addresses that may not be mapped at the same time. */
  predicate Conflict(a: SockAddr, b: SockAddr) {
    PortOf(a) == PortOf(b) && (Same(a, b) || IsWildcard(a) || IsWildcard(b))
  }
}
