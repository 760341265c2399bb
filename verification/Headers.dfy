/** IP packets laid out by the standards, against what the tunnel reads from them: source and
    destination (`datagram.rs`), length (`padding.rs`) and priority (`priority.rs`). */
module Headers {
  import opened Bytes
  import opened Datagram
  import opened Padding
  import opened Priority

  const UDP: byte := 17

  /** The options field of an IPv4 header: up to ten 32-bit words. */
  type Options = s: seq<byte> | |s| % 4 == 0 && |s| <= 40

  /** The fixed part of an IPv4 header of 4 * `words` bytes in all, section 3.1 of RFC 791. */
  function Ipv4Header(words: nat, tos: byte, total: nat, protocol: byte, src: Ipv4, dst: Ipv4): (h: seq<byte>)
    requires words < 16
    ensures |h| == 20
  {
    [0x40 + words, tos] + Be16(total) + [0, 0, 0, 0, 64, protocol, 0, 0]
      + [src.a, src.b, src.c, src.d, dst.a, dst.b, dst.c, dst.d]
  }

  function Ipv4Packet(tos: byte, protocol: byte, src: Ipv4, dst: Ipv4, options: Options, payload: seq<byte>): (p: Packet)
    ensures |p| == 20 + |options| + |payload|
    ensures p[0] == 0x45 + |options| / 4 && p[1] == tos && p[9] == protocol
    ensures p[20 + |options|..] == payload
  {
    Ipv4Header(5 + |options| / 4, tos, 20 + |options| + |payload|, protocol, src, dst) + options + payload
  }

  /** An IPv6 packet, section 3 of RFC 8200. */
  function Ipv6Packet(next: byte, src: seq<byte>, dst: seq<byte>, payload: seq<byte>): Packet
    requires |src| == 16 && |dst| == 16
  {
    [0x60, 0, 0, 0] + Be16(|payload|) + [next, 64] + src + dst + payload
  }

  /** A UDP datagram's first bytes: source and destination port (RFC 768). */
  function UdpTo(port: nat, rest: seq<byte>): seq<byte> { [0, 0] + Be16(port) + rest }

  lemma HeaderFields(words: nat, tos: byte, total: nat, protocol: byte, src: Ipv4, dst: Ipv4, p: Packet)
    requires words < 16 && total <= 65535 && 20 <= |p|
    requires p[..20] == Ipv4Header(words, tos, total, protocol, src, dst)
    ensures HighNibble(p[0]) == 4 && FromBe16(p[2], p[3]) == total
    ensures Ipv4(p[12], p[13], p[14], p[15]) == src && Ipv4(p[16], p[17], p[18], p[19]) == dst
  {
    var h := p[..20];
    assert p[0] == h[0] && p[2] == h[2] && p[3] == h[3];
    assert p[12] == h[12] && p[13] == h[13] && p[14] == h[14] && p[15] == h[15];
    assert p[16] == h[16] && p[17] == h[17] && p[18] == h[18] && p[19] == h[19];
    Be16RoundTrip(total);
  }

  /** Every IPv4 packet is routed by its destination, accepted only from its own source, and
      well-formed for padding. */
  lemma Ipv4IsUnderstood(tos: byte, protocol: byte, src: Ipv4, dst: Ipv4, options: Options, payload: seq<byte>,
                         client: Ipv4)
    requires 20 + |options| + |payload| <= 65535
    ensures var p := Ipv4Packet(tos, protocol, src, dst, options, payload);
      && ExtractDstIpv4(p) == Some(dst) && Routable(p)
      && (ValidateSourceIp(p, client) <==> src == client)
      && WellFormed(p)
  {
    var p := Ipv4Packet(tos, protocol, src, dst, options, payload);
    HeaderFields(5 + |options| / 4, tos, |p|, protocol, src, dst, p);
  }

  /** IPv6 packets are well-formed and accepted, and never routed. */
  lemma Ipv6IsUnderstood(next: byte, src: seq<byte>, dst: seq<byte>, payload: seq<byte>, client: Ipv4)
    requires |src| == 16 && |dst| == 16 && |payload| <= 65535
    ensures var p := Ipv6Packet(next, src, dst, payload);
      WellFormed(p) && ValidateSourceIp(p, client) && !Routable(p)
  {
    Be16RoundTrip(|payload|);
  }

  lemma PortOf(p: Packet, header: nat, port: nat, rest: seq<byte>)
    requires header <= |p| && p[header..] == UdpTo(port, rest) && port < 65536
    ensures header + 4 <= |p| && FromBe16(p[header + 2], p[header + 3]) == port
  {
    var udp := p[header..];
    assert udp[2] == Be16(port)[0] && udp[3] == Be16(port)[1];
    Be16RoundTrip(port);
  }

  /** Realtime is expedited forwarding, DNS over UDP, and UDP packets under 300 bytes, whatever the
      two congestion bits beside the DSCP. */
  lemma PriorityOfUdp(dscp: nat, ecn: nat, src: Ipv4, dst: Ipv4, options: Options, port: nat, rest: seq<byte>)
    requires dscp < 64 && ecn < 4 && port < 65536
    ensures var p := Ipv4Packet(dscp * 4 + ecn, UDP, src, dst, options, UdpTo(port, rest));
      Classify(p) == Realtime <==> dscp == 46 || port == 53 || |p| < 300
  {
    var p := Ipv4Packet(dscp * 4 + ecn, UDP, src, dst, options, UdpTo(port, rest));
    PortOf(p, 20 + |options|, port, rest);
    assert p[0] % 16 * 4 == 20 + |options|;
  }

  /** Anything but UDP, and UDP too short to have ports, is realtime only by expedited forwarding. */
  lemma PriorityOfOthers(dscp: nat, ecn: nat, protocol: byte, src: Ipv4, dst: Ipv4, options: Options, payload: seq<byte>)
    requires dscp < 64 && ecn < 4 && (protocol != 17 || |payload| < 4)
    ensures Classify(Ipv4Packet(dscp * 4 + ecn, protocol, src, dst, options, payload)) == Realtime <==> dscp == 46
  {
    var p := Ipv4Packet(dscp * 4 + ecn, protocol, src, dst, options, payload);
    assert p[0] % 16 * 4 == 20 + |options|;
  }

  /** What is not IPv4, or too short for its header, is neither routed nor realtime; and whatever
      the bytes, a client's packet passes the source check exactly if it starts like IPv6 or has a
      whole IPv4 header with the client's own address as source. */
  lemma OthersAreNotUnderstood(p: Packet, client: Ipv4)
    ensures |p| < 20 || p[0] / 16 != 4 ==> !Routable(p) && Classify(p) == Bulk
    ensures ValidateSourceIp(p, client) <==>
      p != [] && (p[0] / 16 == 6
                  || (p[0] / 16 == 4 && |p| >= 20 && p[12..16] == [client.a, client.b, client.c, client.d]))
  {
  }
}
