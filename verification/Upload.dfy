/** The upload path of plain and camouflaged clients: pad and idle dummies on the way out
    (`quic_camouflaged.rs`, `padding.rs`), filter, strip and source check at the server
    (`server.rs`, the datagram-to-TUN loop of `run_vpn_tunnel`). */
module Upload {
  import opened Bytes
  import opened Datagram
  import opened Headers
  import opened Padding

  /** What the client hands to the transport: packets from its TUN, and idle dummies. */
  datatype Item = Real(p: Packet) | Dummy(random: seq<byte>)

  /** On a padded session a packet has to tell its own length; dummies are not empty. */
  predicate GoodItem(item: Item, padded: bool) {
    match item
    case Real(p) => padded ==> WellFormed(p)
    case Dummy(random) => random != []
  }

  function ClientSends(item: Item, pads: bool): seq<byte>
    requires item.Dummy? ==> item.random != []
  {
    var data := match item case Real(p) => p case Dummy(random) => IdleDummy(random);
    if pads then Pad(data) else data
  }

  /** The packet the server would write, before the shaper has its say. */
  function ServerAccepts(data: seq<byte>, padded: bool, clientIp: Ipv4): Option<Packet> {
    if data == [] then None
    else if padded then
      if HighNibble(data[0]) != 4 && HighNibble(data[0]) != 6 then None
      else
        var stripped := Strip(data);
        if ValidateSourceIp(stripped, clientIp) then Some(stripped) else None
    else if ValidateSourceIp(data, clientIp) then Some(data) else None
  }

  /** What the server writes to TUN; `admits` are the shaper's verdicts. */
  function ServerWrites(items: seq<Item>, admits: seq<bool>, pads: bool, padded: bool, clientIp: Ipv4): seq<Packet>
    requires |admits| == |items| && forall item :: item in items ==> GoodItem(item, padded)
  {
    if items == [] then []
    else
      assert GoodItem(items[0], padded);
      var accepted := ServerAccepts(ClientSends(items[0], pads), padded, clientIp);
      (if accepted.Some? && admits[0] then [accepted.value] else [])
        + ServerWrites(items[1..], admits[1..], pads, padded, clientIp)
  }

  /** The packets that ought to get through: real, from the client's own address, and admitted. */
  function Genuine(items: seq<Item>, admits: seq<bool>, clientIp: Ipv4): seq<Packet>
    requires |admits| == |items|
  {
    if items == [] then []
    else
      (if items[0].Real? && admits[0] && ValidateSourceIp(items[0].p, clientIp) then [items[0].p] else [])
        + Genuine(items[1..], admits[1..], clientIp)
  }

  /** One packet: the server's strip undoes the client's pad, for IPv4 and IPv6, and on a session
      without padding the packet arrives as it is; either way the source check decides. */
  lemma RealIsRestored(p: Packet, pads: bool, padded: bool, clientIp: Ipv4)
    requires (padded ==> WellFormed(p)) && (pads ==> padded)
    ensures ServerAccepts(ClientSends(Real(p), pads), padded, clientIp)
         == if ValidateSourceIp(p, clientIp) then Some(p) else None
  {
    if padded {
      StripUndoesPad(p);
    }
  }

  /** On every kind of session an IPv4 packet is accepted, unchanged, if and only if it comes from
      the client's own address. */
  lemma AcceptedIffOwnSource(tos: byte, protocol: byte, src: Ipv4, dst: Ipv4, options: Options, payload: seq<byte>,
                             pads: bool, padded: bool, clientIp: Ipv4)
    requires 20 + |options| + |payload| <= 65535 && (pads ==> padded)
    ensures var p := Ipv4Packet(tos, protocol, src, dst, options, payload);
      ServerAccepts(ClientSends(Real(p), pads), padded, clientIp) == if src == clientIp then Some(p) else None
  {
    Ipv4IsUnderstood(tos, protocol, src, dst, options, payload, clientIp);
    RealIsRestored(Ipv4Packet(tos, protocol, src, dst, options, payload), pads, padded, clientIp);
  }

  /** One dummy: refused whether or not the server expects padding and the client pads. */
  lemma DummyIsRefused(random: seq<byte>, pads: bool, padded: bool, clientIp: Ipv4)
    requires random != []
    ensures ServerAccepts(ClientSends(Dummy(random), pads), padded, clientIp) == None
  {
    assert ClientSends(Dummy(random), pads)[0] == random[0] % 16;
  }

  /** For every mix of packets and idle dummies, every padding setting the two sides may have
      together and every sequence of shaper verdicts, the server's TUN sees exactly the genuine
      packets, unpadded and in order, and no dummy. */
  lemma {:induction false} UploadDelivers(items: seq<Item>, admits: seq<bool>, pads: bool, padded: bool,
                                          clientIp: Ipv4)
    requires |admits| == |items| && (forall item :: item in items ==> GoodItem(item, padded)) && (pads ==> padded)
    ensures ServerWrites(items, admits, pads, padded, clientIp) == Genuine(items, admits, clientIp)
  {
    if items == [] {
    } else {
      assert items[0] in items;
      match items[0] {
        case Real(p) => RealIsRestored(p, pads, padded, clientIp);
        case Dummy(random) => DummyIsRefused(random, pads, padded, clientIp);
      }
      UploadDelivers(items[1..], admits[1..], pads, padded, clientIp);
    }
  }
}
