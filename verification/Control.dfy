/** `control.rs` and its users: the fixed-size control messages, the server's path-MTU monitor
    (`run_pmtu_monitor`) and the client's reader (`read_session_updates`). */
module Control {
  import opened Bytes
  import opened Datagram

  const MSG_CLIENT_AUTH: byte := 1
  const MSG_SESSION_CONFIG: byte := 2
  const MSG_SESSION_UPDATE: byte := 3
  const CLIENT_AUTH_LEN: nat := 66
  const SESSION_CONFIG_LEN: nat := 17
  const SESSION_CONFIG_LEN_V1: nat := 16
  const SESSION_UPDATE_LEN: nat := 3
  const SIGNIFICANT_CHANGE: nat := 50

  type u16 = n: int | 0 <= n < 65536

  datatype ClientAuth = ClientAuth(nonce: Bytes32, mac: Bytes32, version: byte)

  datatype SessionConfig = SessionConfig(clientIp: Ipv4, serverIp: Ipv4, dnsIp: Ipv4,
                                         mtu: u16, keepaliveSecs: byte, flags: byte)

  function Octets(ip: Ipv4): seq<byte> { [ip.a, ip.b, ip.c, ip.d] }

  function EncodeAuth(m: ClientAuth): (r: seq<byte>)
    ensures |r| == CLIENT_AUTH_LEN
  {
    [MSG_CLIENT_AUTH] + m.nonce + m.mac + [m.version]
  }

  function DecodeAuth(data: seq<byte>): Option<ClientAuth> {
    if |data| < CLIENT_AUTH_LEN || data[0] != MSG_CLIENT_AUTH then None
    else Some(ClientAuth(data[1..33], data[33..65], data[65]))
  }

  function EncodeConfig(m: SessionConfig): (r: seq<byte>)
    ensures |r| == SESSION_CONFIG_LEN
  {
    [MSG_SESSION_CONFIG] + Octets(m.clientIp) + Octets(m.serverIp) + Octets(m.dnsIp) + Be16(m.mtu)
      + [m.keepaliveSecs, m.flags]
  }

  function DecodeConfig(data: seq<byte>): Option<SessionConfig> {
    if |data| < SESSION_CONFIG_LEN_V1 || data[0] != MSG_SESSION_CONFIG then None
    else Some(SessionConfig(
      Ipv4(data[1], data[2], data[3], data[4]),
      Ipv4(data[5], data[6], data[7], data[8]),
      Ipv4(data[9], data[10], data[11], data[12]),
      FromBe16(data[13], data[14]),
      data[15],
      if |data| >= SESSION_CONFIG_LEN then data[16] else 0))
  }

  function EncodeUpdate(mtu: u16): (r: seq<byte>)
    ensures |r| == SESSION_UPDATE_LEN
  {
    [MSG_SESSION_UPDATE] + Be16(mtu)
  }

  function DecodeUpdate(data: seq<byte>): Option<u16> {
    if |data| < SESSION_UPDATE_LEN || data[0] != MSG_SESSION_UPDATE then None
    else Some(FromBe16(data[1], data[2]))
  }

  /** Both ways: decoding undoes encoding, and a message decodes to a value exactly if it starts
      with that value's encoding. */
  lemma AuthRoundTrip(m: ClientAuth, data: seq<byte>)
    ensures DecodeAuth(EncodeAuth(m)) == Some(m)
    ensures DecodeAuth(data) == Some(m) <==> EncodeAuth(m) <= data
  {
    assert EncodeAuth(m)[1..33] == m.nonce && EncodeAuth(m)[33..65] == m.mac;
    if EncodeAuth(m) <= data {
      assert data[1..33] == m.nonce && data[33..65] == m.mac;
    }
    if DecodeAuth(data) == Some(m) {
      assert data[..66] == EncodeAuth(m);
    }
  }

  /** What is on the wire, byte by byte: type, nonce, MAC, version. */
  lemma AuthLayout(m: ClientAuth)
    ensures var data := EncodeAuth(m);
      |data| == 66 && data[0] == 1 && data[1..33] == m.nonce && data[33..65] == m.mac && data[65] == m.version
  {
  }

  /** Type, client, server and DNS address, MTU with its high byte first, keepalive, flags. */
  lemma ConfigLayout(m: SessionConfig)
    ensures var data := EncodeConfig(m);
      && |data| == 17 && data[0] == 2
      && Ipv4(data[1], data[2], data[3], data[4]) == m.clientIp
      && Ipv4(data[5], data[6], data[7], data[8]) == m.serverIp
      && Ipv4(data[9], data[10], data[11], data[12]) == m.dnsIp
      && 256 * (data[13] as int) + data[14] as int == m.mtu && data[15] == m.keepaliveSecs && data[16] == m.flags
  {
  }

  lemma UpdateLayout(mtu: u16)
    ensures var data := EncodeUpdate(mtu); |data| == 3 && data[0] == 3 && 256 * (data[1] as int) + data[2] as int == mtu
  {
  }

  /** The 17-byte form carries everything; the first 16 bytes alone decode with no flags. */
  lemma ConfigRoundTrip(m: SessionConfig, data: seq<byte>)
    ensures DecodeConfig(EncodeConfig(m)) == Some(m)
    ensures DecodeConfig(EncodeConfig(m)[..SESSION_CONFIG_LEN_V1]) == Some(m.(flags := 0))
    ensures |data| >= SESSION_CONFIG_LEN ==> (DecodeConfig(data) == Some(m) <==> EncodeConfig(m) <= data)
  {
    if |data| >= SESSION_CONFIG_LEN && DecodeConfig(data) == Some(m) {
      assert Be16(m.mtu) == [data[13], data[14]];
      assert data[..17] == EncodeConfig(m);
    }
  }

  lemma UpdateRoundTrip(mtu: u16, data: seq<byte>)
    ensures DecodeUpdate(EncodeUpdate(mtu)) == Some(mtu)
    ensures DecodeUpdate(data) == Some(mtu) <==> EncodeUpdate(mtu) <= data
  {
    if DecodeUpdate(data) == Some(mtu) {
      assert Be16(mtu) == [data[1], data[2]];
      assert data[..3] == EncodeUpdate(mtu);
    }
  }

  // ----- The monitor -----

  function Distance(a: u16, b: u16): nat { if a <= b then b - a else a - b }

  /** The updates sent for a sequence of samples, starting from the MTU at session start. */
  function SentUpdates(last: u16, samples: seq<u16>): seq<u16>
    decreases |samples|
  {
    if samples == [] then []
    else if Distance(last, samples[0]) > SIGNIFICANT_CHANGE
    then [samples[0]] + SentUpdates(samples[0], samples[1..])
    else SentUpdates(last, samples[1..])
  }

  function EncodeUpdates(mtus: seq<u16>): seq<byte> {
    if mtus == [] then [] else EncodeUpdate(mtus[0]) + EncodeUpdates(mtus[1..])
  }

  lemma {:induction false} EncodeUpdatesSnoc(mtus: seq<u16>, mtu: u16)
    ensures EncodeUpdates(mtus + [mtu]) == EncodeUpdates(mtus) + EncodeUpdate(mtu)
  {
    if mtus == [] {
      assert [mtu][1..] == [];
    } else {
      assert (mtus + [mtu])[1..] == mtus[1..] + [mtu];
      EncodeUpdatesSnoc(mtus[1..], mtu);
    }
  }

  function LastOr(mtus: seq<u16>, start: u16): u16 { if mtus == [] then start else mtus[|mtus| - 1] }

  lemma {:induction false} SentUpdatesSnoc(start: u16, samples: seq<u16>, next: u16)
    ensures var sent := SentUpdates(start, samples);
      SentUpdates(start, samples + [next]) ==
        if Distance(LastOr(sent, start), next) > SIGNIFICANT_CHANGE then sent + [next] else sent
    decreases |samples|
  {
    if samples == [] {
      assert [next][1..] == [];
    } else {
      var last := if Distance(start, samples[0]) > SIGNIFICANT_CHANGE then samples[0] else start;
      assert (samples + [next])[1..] == samples[1..] + [next];
      SentUpdatesSnoc(last, samples[1..], next);
    }
  }

  /** The monitor's loop, one turn per tick. A failed write ends it, which is a shorter run. */
  method RunPmtuMonitor(start: u16, samples: seq<u16>) returns (stream: seq<byte>, last: u16)
    ensures stream == EncodeUpdates(SentUpdates(start, samples))
    ensures last == LastOr(SentUpdates(start, samples), start)
    ensures samples != [] ==> Distance(last, samples[|samples| - 1]) <= SIGNIFICANT_CHANGE
  {
    stream, last := [], start;
    for i := 0 to |samples|
      invariant var sent := SentUpdates(start, samples[..i]);
        stream == EncodeUpdates(sent) && last == LastOr(sent, start)
      invariant i > 0 ==> Distance(last, samples[i - 1]) <= SIGNIFICANT_CHANGE
    {
      assert samples[..i + 1] == samples[..i] + [samples[i]];
      SentUpdatesSnoc(start, samples[..i], samples[i]);
      EncodeUpdatesSnoc(SentUpdates(start, samples[..i]), samples[i]);
      var current := samples[i];
      if Distance(last, current) > SIGNIFICANT_CHANGE {
        stream := stream + EncodeUpdate(current);
        last := current;
      }
    }
    assert samples[..|samples|] == samples;
  }

  // ----- The client -----

  /** `read_session_updates`: three bytes at a time, ignoring what is not an update. */
  function ReadUpdates(stream: seq<byte>): seq<u16>
    decreases |stream|
  {
    if |stream| < SESSION_UPDATE_LEN then []
    else
      var update := DecodeUpdate(stream[..SESSION_UPDATE_LEN]);
      (if update.Some? then [update.value] else []) + ReadUpdates(stream[SESSION_UPDATE_LEN..])
  }

  lemma {:induction false} ReadUpdatesDecodes(mtus: seq<u16>)
    ensures ReadUpdates(EncodeUpdates(mtus)) == mtus
  {
    if mtus == [] {
    } else {
      var first, rest := EncodeUpdate(mtus[0]), EncodeUpdates(mtus[1..]);
      assert (first + rest)[..3] == first && (first + rest)[3..] == rest;
      UpdateRoundTrip(mtus[0], first);
      ReadUpdatesDecodes(mtus[1..]);
      assert [mtus[0]] + mtus[1..] == mtus;
    }
  }

  /** Each value differs by more than 50 from the one before it, the first from `last`. */
  predicate Significant(last: u16, sent: seq<u16>)
    decreases |sent|
  {
    sent == [] || (Distance(last, sent[0]) > 50 && Significant(sent[0], sent[1..]))
  }

  /** An update is sent only for a change of more than 50, and carries a sample. */
  lemma {:induction false} UpdatesAreSignificant(start: u16, samples: seq<u16>)
    ensures Significant(start, SentUpdates(start, samples))
    ensures forall mtu :: mtu in SentUpdates(start, samples) ==> mtu in samples
    decreases |samples|
  {
    if samples == [] {
    } else if Distance(start, samples[0]) > SIGNIFICANT_CHANGE {
      UpdatesAreSignificant(samples[0], samples[1..]);
      assert ([samples[0]] + SentUpdates(samples[0], samples[1..]))[1..] == SentUpdates(samples[0], samples[1..]);
    } else {
      UpdatesAreSignificant(start, samples[1..]);
    }
  }

  /** Three bytes that are not an update are skipped; an incomplete message at the end is not read. */
  lemma OtherMessagesAreSkipped(junk: seq<byte>, stream: seq<byte>)
    requires |junk| == 3 && junk[0] != 3
    ensures ReadUpdates(junk + stream) == ReadUpdates(stream)
    ensures ReadUpdates(junk[..2]) == []
  {
    assert (junk + stream)[..3] == junk && (junk + stream)[3..] == stream;
    assert [] + ReadUpdates(stream) == ReadUpdates(stream);
  }

  /** After every tick the sample is within 50 of the monitor's last value. */
  lemma MonitorTracks(start: u16, samples: seq<u16>)
    requires samples != []
    ensures Distance(LastOr(SentUpdates(start, samples), start), samples[|samples| - 1]) <= SIGNIFICANT_CHANGE
  {
    var front, next := samples[..|samples| - 1], samples[|samples| - 1];
    SentUpdatesSnoc(start, front, next);
    assert samples == front + [next];
  }

  /** The whole control stream. For every sequence of path-MTU samples, the client decodes the
      session config and then exactly the MTUs the monitor sent, and if there was any, the last
      one is within 50 of the latest sample. */
  lemma ControlStreamDelivers(config: SessionConfig, start: u16, samples: seq<u16>)
    ensures var stream := EncodeConfig(config) + EncodeUpdates(SentUpdates(start, samples));
      var updates := ReadUpdates(stream[SESSION_CONFIG_LEN..]);
      && DecodeConfig(stream[..SESSION_CONFIG_LEN]) == Some(config)
      && updates == SentUpdates(start, samples)
      && (updates != [] && samples != [] ==>
          Distance(updates[|updates| - 1], samples[|samples| - 1]) <= 50)
      && (updates == [] && samples != [] ==> Distance(start, samples[|samples| - 1]) <= 50)
  {
    var head, tail := EncodeConfig(config), EncodeUpdates(SentUpdates(start, samples));
    assert (head + tail)[..17] == head && (head + tail)[17..] == tail;
    ConfigRoundTrip(config, head);
    ReadUpdatesDecodes(SentUpdates(start, samples));
    if samples != [] {
      MonitorTracks(start, samples);
    }
  }
}
