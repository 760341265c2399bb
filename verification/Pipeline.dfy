/** The download path: priority queue, optional padding, batcher, lossy datagrams, and the client's
    strip, classify and decode (`server.rs` send loop, `client.rs` receive loop). */
module Pipeline {
  import opened Bytes
  import opened Batch
  import opened Datagram
  import opened Headers
  import opened Padding

  /** What the send loop waits for: a packet from the queue, or the 1 ms flush timer. */
  datatype Event = Popped(p: Packet) | FlushTimeout

  function FlushOut(pending: seq<Packet>): seq<seq<byte>> {
    if pending == [] then [] else [Encode(pending)]
  }

  function OnWire(p: Packet, pads: bool): Packet { if pads then Pad(p) else p }

  /** One turn of the send loop: the packets now pending and the datagrams offered to QUIC. */
  function SendStep(pending: seq<Packet>, e: Event, pads: bool): (seq<Packet>, seq<seq<byte>>) {
    match e
    case FlushTimeout => ([], FlushOut(pending))
    case Popped(p) =>
      var q := OnWire(p, pads);
      if |q| >= BATCH_SIZE_THRESHOLD then ([], FlushOut(pending) + [q])
      else
        var (after, batch) := AddPacket(pending, q);
        (after, if batch.Some? then [batch.value] else [])
  }

  datatype Sent = Sent(pending: seq<Packet>, datagrams: seq<seq<byte>>)

  function SendAll(events: seq<Event>, pads: bool): Sent {
    if events == [] then Sent([], [])
    else
      var before := SendAll(events[..|events| - 1], pads);
      var (pending, out) := SendStep(before.pending, events[|events| - 1], pads);
      Sent(pending, before.datagrams + out)
  }

  /** Flush the batcher and offer what comes out, if anything. */
  method OfferPending(batcher: DatagramBatcher) returns (out: seq<seq<byte>>)
    requires batcher.Valid()
    modifies batcher
    ensures batcher.Valid() && batcher.pending == [] && out == FlushOut(old(batcher.pending))
  {
    EncodeIsEmptyIff(batcher.pending);
    var batch := batcher.Flush();
    out := if batch != [] then [batch] else [];
  }

  /** The send loop itself, run over the events that occur. */
  method SendLoop(events: seq<Event>, pads: bool) returns (datagrams: seq<seq<byte>>, pending: seq<Packet>)
    ensures Sent(pending, datagrams) == SendAll(events, pads)
  {
    var batcher := new DatagramBatcher();
    datagrams := [];
    for i := 0 to |events|
      invariant batcher.Valid()
      invariant Sent(batcher.pending, datagrams) == SendAll(events[..i], pads)
    {
      assert events[..i + 1][..i] == events[..i];
      match events[i] {
        case FlushTimeout =>
          // The flush timer runs only while something is pending.
          var timed := batcher.HasPending();
          if timed {
            var out := OfferPending(batcher);
            datagrams := datagrams + out;
          }
        case Popped(p) =>
          var packet := p;
          if pads {
            packet := PadToStandard(p);
          }
          if |packet| >= BATCH_SIZE_THRESHOLD {
            var out := OfferPending(batcher);
            datagrams := datagrams + (out + [packet]);
          } else {
            var full := batcher.Add(packet);
            if full.Some? {
              datagrams := datagrams + [full.value];
            }
          }
      }
    }
    assert events[..|events|] == events;
    pending := batcher.pending;
  }

  lemma EncodeIsEmptyIff(ps: seq<Packet>)
    ensures Encode(ps) == [] <==> ps == []
  {
  }

  // ----- The client -----

  /** The client's heuristic: anything that does not start like an IP packet is a batch. */
  predicate IsBatchedDatagram(data: seq<byte>) {
    data != [] && HighNibble(data[0]) != 4 && HighNibble(data[0]) != 6
  }

  /** `write_to_tun` ignores empty packets. */
  function TunWrites(ps: seq<Packet>): seq<Packet> {
    if ps == [] then [] else (if ps[0] == [] then [] else [ps[0]]) + TunWrites(ps[1..])
  }

  /** What one received datagram makes the client write, with batching negotiated; `strips` is the
      transport's padding setting. */
  function Receive(datagram: seq<byte>, strips: bool): seq<Packet> {
    var data := if strips then Strip(datagram) else datagram;
    if data == [] then []
    else if IsBatchedDatagram(data) then TunWrites(Decode(data))
    else [data]
  }

  function Written(datagrams: seq<seq<byte>>, strips: bool): seq<Packet> {
    if datagrams == [] then [] else Receive(datagrams[0], strips) + Written(datagrams[1..], strips)
  }

  /** The receive loop. */
  method ReceiveLoop(datagrams: seq<seq<byte>>, strips: bool) returns (tun: seq<Packet>)
    ensures tun == Written(datagrams, strips)
  {
    tun := [];
    for i := 0 to |datagrams|
      invariant tun == Written(datagrams[..i], strips)
    {
      assert datagrams[..i + 1] == datagrams[..i] + [datagrams[i]];
      WrittenConcat(datagrams[..i], [datagrams[i]], strips);
      WrittenOne(datagrams[i], strips);
      var data := if strips then Strip(datagrams[i]) else datagrams[i];
      if data == [] {
        continue;
      }
      if IsBatchedDatagram(data) {
        var packets := BatchDecode(data);
        tun := tun + TunWrites(packets);
      } else {
        tun := tun + [data];
      }
    }
    assert datagrams[..|datagrams|] == datagrams;
  }

  lemma {:induction false} WrittenConcat(a: seq<seq<byte>>, b: seq<seq<byte>>, strips: bool)
    ensures Written(a + b, strips) == Written(a, strips) + Written(b, strips)
  {
    if a == [] {
      assert a + b == b;
    } else {
      assert (a + b)[1..] == a[1..] + b;
      WrittenConcat(a[1..], b, strips);
    }
  }

  lemma WrittenOne(d: seq<byte>, strips: bool)
    ensures Written([d], strips) == Receive(d, strips)
  {
    assert [d][1..] == [];
  }

  /** The form in which a packet reaches the client's TUN. */
  function Arrives(p: Packet, pads: bool, strips: bool): Packet {
    var q := OnWire(p, pads);
    if strips && |q| >= BATCH_SIZE_THRESHOLD then Strip(q) else q
  }

  function PoppedPackets(events: seq<Event>): seq<Packet> {
    if events == [] then []
    else
      var e := events[|events| - 1];
      PoppedPackets(events[..|events| - 1]) + if e.Popped? then [e.p] else []
  }

  function AllArrive(ps: seq<Packet>, pads: bool, strips: bool): seq<Packet> {
    seq(|ps|, i requires 0 <= i < |ps| => Arrives(ps[i], pads, strips))
  }

  // ----- Delivery -----

  predicate NonEmpty(ps: seq<Packet>) { forall p :: p in ps ==> p != [] }

  lemma {:induction false} TunWritesAll(ps: seq<Packet>)
    requires NonEmpty(ps)
    ensures TunWrites(ps) == ps
  {
    if ps == [] {
    } else {
      assert ps[0] in ps && forall p :: p in ps[1..] ==> p in ps;
      TunWritesAll(ps[1..]);
    }
  }

  /** Packets waiting in the batcher: small, non-empty and together within one batch. */
  predicate GoodPending(pending: seq<Packet>) {
    NonEmpty(pending) && Small(pending) && EncodedSize(pending) <= MAX_BATCH_SIZE
  }

  /** A batch is recognised, survives the strip, and is decoded to what went into it. */
  lemma ReceiveBatch(pending: seq<Packet>, strips: bool)
    requires GoodPending(pending)
    ensures Written(FlushOut(pending), strips) == pending
  {
    if pending != [] {
      EncodeIsGood(pending);
      TunWritesAll(pending);
      WrittenOne(Encode(pending), strips);
    }
  }

  lemma StripKeepsFirst(q: seq<byte>)
    requires q != []
    ensures Strip(q) != [] && Strip(q)[0] == q[0]
  {
  }

  /** A datagram that starts like an IPv4 or IPv6 packet is one. */
  lemma ReceiveRaw(q: Packet, strips: bool)
    requires q != [] && (q[0] / 16 == 4 || q[0] / 16 == 6)
    ensures Receive(q, strips) == [if strips then Strip(q) else q]
  {
    StripKeepsFirst(q);
  }

  /** One turn of the loop delivers what was pending and the new packet, or keeps them pending. */
  lemma SendStepDelivers(pending: seq<Packet>, e: Event, pads: bool, strips: bool)
    requires GoodPending(pending) && (e.Popped? ==> Routable(e.p))
    ensures var (after, out) := SendStep(pending, e, pads);
      && GoodPending(after)
      && Written(out, strips) + after == pending + if e.Popped? then [Arrives(e.p, pads, strips)] else []
  {
    ReceiveBatch(pending, strips);
    if e.Popped? {
      var q := OnWire(e.p, pads);
      assert q != [] && q[0] == e.p[0];
      if |q| >= BATCH_SIZE_THRESHOLD {
        WrittenConcat(FlushOut(pending), [q], strips);
        WrittenOne(q, strips);
        ReceiveRaw(q, strips);
      } else {
        AddFits(pending, q);
      }
    }
  }

  lemma ChainDelivery(written: seq<Packet>, pending: seq<Packet>, arrived: seq<Packet>,
                      out: seq<Packet>, after: seq<Packet>, next: seq<Packet>)
    requires written + pending == arrived && out + after == pending + next
    ensures written + out + after == arrived + next
  {
    assert written + out + after == written + (out + after);
  }

  lemma AllArriveSnoc(ps: seq<Packet>, p: Packet, pads: bool, strips: bool)
    ensures AllArrive(ps + [p], pads, strips) == AllArrive(ps, pads, strips) + [Arrives(p, pads, strips)]
  {
  }

  predicate Delivered(s: Sent, ps: seq<Packet>, pads: bool, strips: bool) {
    GoodPending(s.pending) && Written(s.datagrams, strips) + s.pending == AllArrive(ps, pads, strips)
  }

  lemma OneMoreTurn(s: Sent, ps: seq<Packet>, e: Event, pads: bool, strips: bool)
    requires Delivered(s, ps, pads, strips) && (e.Popped? ==> Routable(e.p))
    ensures var (pending, out) := SendStep(s.pending, e, pads);
      Delivered(Sent(pending, s.datagrams + out), ps + if e.Popped? then [e.p] else [], pads, strips)
  {
    SendStepDelivers(s.pending, e, pads, strips);
    var (pending, out) := SendStep(s.pending, e, pads);
    var next := if e.Popped? then [Arrives(e.p, pads, strips)] else [];
    ChainDelivery(Written(s.datagrams, strips), s.pending, AllArrive(ps, pads, strips),
                  Written(out, strips), pending, next);
    WrittenConcat(s.datagrams, out, strips);
    if e.Popped? {
      AllArriveSnoc(ps, e.p, pads, strips);
    } else {
      assert ps + [] == ps;
    }
  }

  /** Delivery. For every sequence of routable packets and every placement of flush timeouts, with
      no datagram lost, what the client writes to TUN followed by what is pending in the batcher is
      exactly the packets popped, in order, each in the form in which it arrives. */
  lemma {:induction false} DownloadDelivers(events: seq<Event>, pads: bool, strips: bool)
    requires forall e :: e in events && e.Popped? ==> Routable(e.p)
    ensures var s := SendAll(events, pads);
      && GoodPending(s.pending)
      && Written(s.datagrams, strips) + s.pending == AllArrive(PoppedPackets(events), pads, strips)
  {
    if events == [] {
    } else {
      var front, e := events[..|events| - 1], events[|events| - 1];
      DownloadDelivers(front, pads, strips);
      OneMoreTurn(SendAll(front, pads), PoppedPackets(front), e, pads, strips);
    }
  }

  /** Without padding the client writes the packets themselves. */
  lemma UnpaddedDelivers(events: seq<Event>)
    requires forall e :: e in events && e.Popped? ==> Routable(e.p)
    ensures var s := SendAll(events, false);
      Written(s.datagrams, false) + s.pending == PoppedPackets(events)
  {
    DownloadDelivers(events, false, false);
    assert AllArrive(PoppedPackets(events), false, false) == PoppedPackets(events);
  }

  /** A flush leaves nothing behind: right after the timer fires, or a large packet is sent, the
      client has been sent everything popped. */
  lemma FlushCompletes(events: seq<Event>, pads: bool, strips: bool)
    requires forall e :: e in events && e.Popped? ==> Routable(e.p)
    requires events != [] && var last := events[|events| - 1];
      last.FlushTimeout? || |OnWire(last.p, pads)| >= BATCH_SIZE_THRESHOLD
    ensures Written(SendAll(events, pads).datagrams, strips) == AllArrive(PoppedPackets(events), pads, strips)
  {
    DownloadDelivers(events, pads, strips);
    var s := SendAll(events, pads);
    assert s.pending == [] && Written(s.datagrams, strips) + [] == Written(s.datagrams, strips);
  }

  /** A datagram is offered only when one is due: on a timeout if anything is pending, for a packet
      of 300 bytes or more on the wire, or when a batch would exceed 1100 bytes. */
  lemma SendsWhenDue(pending: seq<Packet>, e: Event, pads: bool)
    requires GoodPending(pending)
    ensures var (after, out) := SendStep(pending, e, pads);
      && (out == [] <==>
          if e.FlushTimeout? then pending == []
          else |OnWire(e.p, pads)| < 300 && |Encode(pending + [OnWire(e.p, pads)])| <= 1100)
      && (e.Popped? && out == [] ==> after == pending + [OnWire(e.p, pads)])
  {
    if e.Popped? && |OnWire(e.p, pads)| < BATCH_SIZE_THRESHOLD {
      AddFits(pending, OnWire(e.p, pads));
    }
  }

  /** Every datagram is a batch of at most 1100 bytes or a packet of at least 300; from a padding
      server every such packet has a standard size or exceeds them all. */
  predicate GoodDatagram(d: seq<byte>, pads: bool) {
    || GoodBatch(d)
    || (|d| >= 300 && d[0] / 16 == 4 && (pads ==> |d| in {512, 1024, 1200, 1400} || |d| > 1400))
  }

  lemma SendStepSizes(pending: seq<Packet>, e: Event, pads: bool)
    requires GoodPending(pending) && (e.Popped? ==> Routable(e.p))
    ensures forall d :: d in SendStep(pending, e, pads).1 ==> GoodDatagram(d, pads)
  {
    EncodeIsGood(pending);
    if e.Popped? {
      PadShape(e.p);
    }
  }

  lemma {:induction false} DatagramSizes(events: seq<Event>, pads: bool)
    requires forall e :: e in events && e.Popped? ==> Routable(e.p)
    ensures forall d :: d in SendAll(events, pads).datagrams ==> GoodDatagram(d, pads)
  {
    if events == [] {
    } else {
      var front, e := events[..|events| - 1], events[|events| - 1];
      DatagramSizes(front, pads);
      DownloadDelivers(front, pads, false);
      SendStepSizes(SendAll(front, pads).pending, e, pads);
    }
  }

  lemma {:induction false} TunWritesSkipsEmpty(ps: seq<Packet>)
    ensures NonEmpty(TunWrites(ps))
  {
    if ps == [] {
    } else {
      TunWritesSkipsEmpty(ps[1..]);
    }
  }

  /** Whatever a datagram holds, no empty packet is written. */
  lemma NothingEmptyIsWritten(datagram: seq<byte>, strips: bool)
    ensures NonEmpty(Receive(datagram, strips))
  {
    var data := if strips then Strip(datagram) else datagram;
    if data != [] && IsBatchedDatagram(data) {
      TunWritesSkipsEmpty(Decode(data));
    }
  }

  // ----- Loss and reordering -----

  /** The datagrams that survive: those whose bit in the mask is set. */
  function Kept(datagrams: seq<seq<byte>>, mask: seq<bool>): seq<seq<byte>>
    requires |mask| == |datagrams|
  {
    if datagrams == [] then []
    else (if mask[0] then [datagrams[0]] else []) + Kept(datagrams[1..], mask[1..])
  }

  lemma {:induction false} LossIsSubsequence(datagrams: seq<seq<byte>>, mask: seq<bool>, strips: bool)
    requires |mask| == |datagrams|
    ensures Subsequence(Written(Kept(datagrams, mask), strips), Written(datagrams, strips))
  {
    if datagrams == [] {
    } else {
      LossIsSubsequence(datagrams[1..], mask[1..], strips);
      var rest := Kept(datagrams[1..], mask[1..]);
      var now := Receive(datagrams[0], strips);
      if mask[0] {
        assert Kept(datagrams, mask)[1..] == rest;
        SubsequenceRefl(now);
        SubsequenceConcat(now, now, Written(rest, strips), Written(datagrams[1..], strips));
      } else {
        assert Kept(datagrams, mask) == rest;
        SubsequenceConcat([], now, Written(rest, strips), Written(datagrams[1..], strips));
        assert [] + Written(rest, strips) == Written(rest, strips);
      }
    }
  }

  /** Whatever subset of the datagrams is lost, the client writes a subsequence of what was popped:
      nothing is corrupted, duplicated or reordered. */
  lemma LossyDelivery(events: seq<Event>, mask: seq<bool>, pads: bool, strips: bool)
    requires forall e :: e in events && e.Popped? ==> Routable(e.p)
    requires |mask| == |SendAll(events, pads).datagrams|
    ensures Subsequence(Written(Kept(SendAll(events, pads).datagrams, mask), strips),
                        AllArrive(PoppedPackets(events), pads, strips))
  {
    var s := SendAll(events, pads);
    DownloadDelivers(events, pads, strips);
    LossIsSubsequence(s.datagrams, mask, strips);
    var got := Written(Kept(s.datagrams, mask), strips);
    SubsequenceConcat(got, Written(s.datagrams, strips), [], s.pending);
    assert got + [] == got;
  }

  /** One copy of `d` taken out of `sent`. */
  lemma TakeOut(sent: seq<seq<byte>>, d: seq<byte>) returns (left: seq<seq<byte>>, right: seq<seq<byte>>)
    requires d in sent
    ensures sent == left + ([d] + right) && multiset(sent) == multiset(left + right) + multiset{d}
  {
    var k :| 0 <= k < |sent| && sent[k] == d;
    left, right := sent[..k], sent[k + 1..];
    assert sent == left + ([d] + right);
    assert multiset(left + ([d] + right)) == multiset(left) + (multiset{d} + multiset(right));
    assert multiset(left + right) == multiset(left) + multiset(right);
  }

  lemma WrittenWith(left: seq<seq<byte>>, d: seq<byte>, right: seq<seq<byte>>, strips: bool)
    ensures multiset(Written(left + ([d] + right), strips))
         == multiset(Receive(d, strips)) + multiset(Written(left + right, strips))
  {
    WrittenConcat(left, right, strips);
    WrittenConcat(left, [d] + right, strips);
    WrittenConcat([d], right, strips);
    WrittenOne(d, strips);
  }

  lemma {:induction false} WrittenBag(got: seq<seq<byte>>, sent: seq<seq<byte>>, strips: bool)
    requires multiset(got) <= multiset(sent)
    ensures multiset(Written(got, strips)) <= multiset(Written(sent, strips))
    decreases |got|
  {
    if got == [] {
    } else {
      var d, rest := got[0], got[1..];
      assert got == [d] + rest;
      assert d in multiset(sent);
      var left, right := TakeOut(sent, d);
      BagWithout(multiset(rest), multiset(left + right), d);
      WrittenBag(rest, left + right, strips);
      WrittenWith(left, d, right, strips);
      assert multiset(Written(got, strips)) == multiset(Receive(d, strips)) + multiset(Written(rest, strips));
    }
  }

  lemma BagWithout(a: multiset<seq<byte>>, b: multiset<seq<byte>>, d: seq<byte>)
    requires multiset{d} + a <= b + multiset{d}
    ensures a <= b
  {
    forall x ensures a[x] <= b[x] {
      assert (multiset{d} + a)[x] <= (b + multiset{d})[x];
    }
  }

  /** Even if the network reorders datagrams as well as losing them, every packet is written at
      most as often as it was popped, and nothing else is written. */
  lemma ReorderedDelivery(events: seq<Event>, got: seq<seq<byte>>, pads: bool, strips: bool)
    requires forall e :: e in events && e.Popped? ==> Routable(e.p)
    requires multiset(got) <= multiset(SendAll(events, pads).datagrams)
    ensures multiset(Written(got, strips)) <= multiset(AllArrive(PoppedPackets(events), pads, strips))
  {
    var s := SendAll(events, pads);
    DownloadDelivers(events, pads, strips);
    WrittenBag(got, s.datagrams, strips);
    assert multiset(Written(s.datagrams, strips) + s.pending)
        == multiset(Written(s.datagrams, strips)) + multiset(s.pending);
  }

  // ----- Padding -----

  /** Whatever the two padding settings, a truthful IPv4 packet arrives in a form that
      `strip_padding` maps back to it. */
  lemma ArrivesUpToPadding(p: Packet, pads: bool, strips: bool)
    requires WellFormed(p)
    ensures Strip(Arrives(p, pads, strips)) == p
  {
    StripUndoesPad(p);
  }

  /** Exactly which packets arrive unchanged, for each setting of the two sides: all of them if the
      server does not pad, otherwise those whose length is a standard size, and, if the client
      strips, those longer than 256 bytes. Every other packet reaches TUN still padded: the strip
      runs before the batch is decoded, and not at all if padding is off at the client. */
  lemma ArrivesExactlyIff(p: Packet, pads: bool, strips: bool)
    requires WellFormed(p)
    ensures Arrives(p, pads, strips) == p <==> !pads || TargetSize(|p|) == |p| || (strips && |p| > 256)
  {
    StripUndoesPad(p);
  }

  lemma PoppedTwo(p: Packet)
    ensures PoppedPackets([Popped(p), FlushTimeout]) == [p]
  {
    assert [Popped(p), FlushTimeout][..1] == [Popped(p)] && [Popped(p)][..0] == [];
    assert PoppedPackets([Popped(p)]) == PoppedPackets([]) + [p];
  }

  /** One packet sent by a padding server and flushed by the timer. */
  lemma OneArrives(p: Packet, strips: bool)
    requires Routable(p)
    ensures Written(SendAll([Popped(p), FlushTimeout], true).datagrams, strips) == [Arrives(p, true, strips)]
  {
    PoppedTwo(p);
    FlushCompletes([Popped(p), FlushTimeout], true, strips);
  }

  const HERE: Ipv4 := Ipv4(10, 0, 0, 1)
  const THERE: Ipv4 := Ipv4(10, 0, 0, 2)

  /** An 84-byte ping is written to the client's TUN as 128 bytes, whatever the client's setting. */
  lemma PingArrivesPadded(strips: bool)
    ensures var ping := Ipv4Packet(0, 1, HERE, THERE, [], Zeros(64));
      && Routable(ping) && |ping| == 84
      && Written(SendAll([Popped(ping), FlushTimeout], true).datagrams, strips) == [ping + Zeros(44)]
  {
    var ping := Ipv4Packet(0, 1, HERE, THERE, [], Zeros(64));
    Ipv4IsUnderstood(0, 1, HERE, THERE, [], Zeros(64), HERE);
    OneArrives(ping, strips);
  }

  /** A 320-byte packet is written as 512 bytes if padding is off at the client. */
  lemma LargeArrivesPadded()
    ensures var p := Ipv4Packet(0, 6, HERE, THERE, [], Zeros(300));
      && Routable(p) && |p| == 320
      && Written(SendAll([Popped(p), FlushTimeout], true).datagrams, false) == [p + Zeros(192)]
      && Written(SendAll([Popped(p), FlushTimeout], true).datagrams, true) == [p]
  {
    var p := Ipv4Packet(0, 6, HERE, THERE, [], Zeros(300));
    Ipv4IsUnderstood(0, 6, HERE, THERE, [], Zeros(300), HERE);
    OneArrives(p, false);
    OneArrives(p, true);
    ArrivesExactlyIff(p, true, true);
  }

  lemma {:induction false} PoppedAreInEvents(events: seq<Event>, i: nat)
    requires i < |PoppedPackets(events)|
    ensures Popped(PoppedPackets(events)[i]) in events
  {
    var front, e := events[..|events| - 1], events[|events| - 1];
    if i < |PoppedPackets(front)| {
      PoppedAreInEvents(front, i);
    }
  }

  /** The padded download path: for truthful packets, what the client writes, followed by what is
      pending, is packet by packet a padded form of what was popped, and with padding enabled at
      the client every packet of padded size 300 or more arrives exactly equal. */
  lemma PaddedDelivers(events: seq<Event>, strips: bool)
    requires forall e :: e in events && e.Popped? ==> Routable(e.p) && WellFormed(e.p)
    ensures var s, ps := SendAll(events, true), PoppedPackets(events);
      var got := Written(s.datagrams, strips) + s.pending;
      && |got| == |ps|
      && (forall i :: 0 <= i < |ps| ==> Strip(got[i]) == ps[i])
      && (forall i :: 0 <= i < |ps| && strips && |Pad(ps[i])| >= BATCH_SIZE_THRESHOLD ==> got[i] == ps[i])
  {
    DownloadDelivers(events, true, strips);
    var ps := PoppedPackets(events);
    forall i | 0 <= i < |ps|
      ensures Strip(AllArrive(ps, true, strips)[i]) == ps[i]
      ensures strips && |Pad(ps[i])| >= BATCH_SIZE_THRESHOLD ==> AllArrive(ps, true, strips)[i] == ps[i]
    {
      PoppedAreInEvents(events, i);
      ArrivesUpToPadding(ps[i], true, strips);
      StripUndoesPad(ps[i]);
    }
  }
}
