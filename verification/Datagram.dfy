/** `datagram.rs`: what the tunnel reads from IP headers. */
module Datagram {
  import opened Bytes

  datatype Ipv4 = Ipv4(a: byte, b: byte, c: byte, d: byte)

  function IpVersion(p: Packet): Option<nat> {
    if p == [] then None
    else if HighNibble(p[0]) == 4 then Some(4)
    else if HighNibble(p[0]) == 6 then Some(6)
    else None
  }

  /** IPv4 sources must match; IPv6 sources are not checked; anything else is refused. */
  predicate ValidateSourceIp(p: Packet, expected: Ipv4) {
    match IpVersion(p)
    case Some(v) => v == 6 || (|p| >= 20 && Ipv4(p[12], p[13], p[14], p[15]) == expected)
    case None => false
  }

  function ExtractDstIpv4(p: Packet): Option<Ipv4> {
    if |p| < 20 then None
    else if HighNibble(p[0]) != 4 then None
    else Some(Ipv4(p[16], p[17], p[18], p[19]))
  }

  /** The packets the global TUN reader hands to the router. */
  predicate Routable(p: Packet) { ExtractDstIpv4(p).Some? }
}
