/** `batch.rs`: length-prefixed batches of small packets, and the accumulator that fills them. */
module Batch {
  import opened Bytes

  const BATCH_SIZE_THRESHOLD: nat := 300
  const MAX_BATCH_SIZE: nat := 1100

  // ----- The codec -----

  function Encode(ps: seq<Packet>): seq<byte> {
    if ps == [] then [] else Be16(|ps[0]|) + ps[0] + Encode(ps[1..])
  }

  /** The first entry of a batch and the bytes after it; none if the bytes are too few. */
  datatype Frame = NoFrame | Frame(p: Packet, rest: seq<byte>)

  function Head(data: seq<byte>): (f: Frame)
    ensures f.Frame? ==> |f.rest| < |data|
  {
    if |data| < 2 then NoFrame
    else
      var len := FromBe16(data[0], data[1]);
      if 2 + len > |data| then NoFrame else Frame(data[2..2 + len], data[2 + len..])
  }

  /** Invalid trailing bytes are ignored. */
  function Decode(data: seq<byte>): seq<Packet>
    decreases |data|
  {
    match Head(data)
    case NoFrame => []
    case Frame(p, rest) => [p] + Decode(rest)
  }

  predicate Fits16(ps: seq<Packet>) { forall p :: p in ps ==> |p| < 65536 }

  function EncodedSize(ps: seq<Packet>): nat {
    if ps == [] then 0 else 2 + |ps[0]| + EncodedSize(ps[1..])
  }

  lemma {:induction false} EncodedSizeIsLength(ps: seq<Packet>)
    ensures |Encode(ps)| == EncodedSize(ps)
  {
    if ps == [] {
    } else {
      EncodedSizeIsLength(ps[1..]);
    }
  }

  lemma {:induction false} EncodeConcat(a: seq<Packet>, b: seq<Packet>)
    ensures Encode(a + b) == Encode(a) + Encode(b) && EncodedSize(a + b) == EncodedSize(a) + EncodedSize(b)
  {
    if a == [] {
      assert a + b == b;
    } else {
      assert (a + b)[1..] == a[1..] + b;
      EncodeConcat(a[1..], b);
    }
  }

  lemma EncodeSnoc(ps: seq<Packet>, p: Packet)
    ensures Encode(ps + [p]) == Encode(ps) + Be16(|p|) + p && EncodedSize(ps + [p]) == EncodedSize(ps) + 2 + |p|
  {
    EncodeConcat(ps, [p]);
    assert Encode([p]) == Be16(|p|) + p + Encode([]);
    assert EncodedSize([p]) == 2 + |p| + EncodedSize([]);
  }

  method BatchEncode(packets: seq<Packet>) returns (buf: seq<byte>)
    ensures buf == Encode(packets)
  {
    buf := [];
    for i := 0 to |packets|
      invariant buf == Encode(packets[..i])
    {
      buf := buf + Be16(|packets[i]|);
      buf := buf + packets[i];
      EncodeSnoc(packets[..i], packets[i]);
      assert packets[..i + 1] == packets[..i] + [packets[i]];
    }
    assert packets[..|packets|] == packets;
  }

  /** What is decoded so far and what is yet to be decoded make up `all`. */
  ghost predicate Decoding(data: seq<byte>, pos: nat, packets: seq<Packet>, all: seq<Packet>) {
    pos <= |data| && packets + Decode(data[pos..]) == all
  }

  method BatchDecode(data: seq<byte>) returns (packets: seq<Packet>)
    ensures packets == Decode(data)
  {
    packets := [];
    var pos := 0;
    ghost var all := Decode(data);
    DecodeBegins(data);
    while pos + 2 <= |data|
      invariant 0 <= pos <= |data|
      invariant Decoding(data, pos, packets, all)
    {
      var len := FromBe16(data[pos], data[pos + 1]);
      pos := pos + 2;
      if pos + len > |data| {
        DecodeEnds(data, pos - 2, packets, all);
        return;
      }
      var packet := data[pos..pos + len];
      DecodeStep(data, pos - 2, packet, packets, all);
      packets := packets + [packet];
      pos := pos + len;
    }
    DecodeEnds(data, pos, packets, all);
  }

  /** One entry of a batch, found at `pos`, on top of the packets decoded before it. */
  lemma DecodeStep(data: seq<byte>, pos: nat, p: Packet, packets: seq<Packet>, all: seq<Packet>)
    requires pos + 2 + |p| <= |data| && |p| == FromBe16(data[pos], data[pos + 1])
    requires p == data[pos + 2..pos + 2 + |p|] && Decoding(data, pos, packets, all)
    ensures Decoding(data, pos + 2 + |p|, packets + [p], all)
  {
    var rest, after := data[pos..], data[pos + 2 + |p|..];
    assert rest[2..2 + |p|] == p && rest[2 + |p|..] == after;
    DecodeCons(rest, p, after);
    ConcatAssoc(packets, [p], Decode(after));
  }

  lemma DecodeBegins(data: seq<byte>)
    ensures Decoding(data, 0, [], Decode(data))
  {
    assert data[0..] == data;
    assert [] + Decode(data) == Decode(data);
  }

  /** Too few bytes for another entry. */
  lemma DecodeEnds(data: seq<byte>, pos: nat, packets: seq<Packet>, all: seq<Packet>)
    requires Decoding(data, pos, packets, all)
    requires pos + 2 <= |data| ==> pos + 2 + FromBe16(data[pos], data[pos + 1]) > |data|
    ensures packets == all
  {
  }

  lemma HeadFrame(p: Packet, rest: seq<byte>)
    requires |p| < 65536
    ensures Head(Be16(|p|) + p + rest) == Frame(p, rest)
  {
    var data := Be16(|p|) + p + rest;
    Be16RoundTrip(|p|);
    assert FromBe16(data[0], data[1]) == |p|;
    assert data[2..2 + |p|] == p && data[2 + |p|..] == rest;
  }

  lemma HeadIsPrefix(data: seq<byte>)
    ensures var f := Head(data); f.Frame? ==> |f.p| < 65536 && data == Be16(|f.p|) + f.p + f.rest
  {
    var f := Head(data);
    if f.Frame? {
      assert Be16(|f.p|) == data[..2];
      assert data == data[..2] + data[2..2 + |f.p|] + data[2 + |f.p|..];
    }
  }

  lemma DecodeCons(data: seq<byte>, p: Packet, rest: seq<byte>)
    requires Head(data) == Frame(p, rest)
    ensures Decode(data) == [p] + Decode(rest)
  {
  }

  lemma DecodeFrame(p: Packet, rest: seq<byte>)
    requires |p| < 65536
    ensures Decode(Be16(|p|) + p + rest) == [p] + Decode(rest)
  {
    HeadFrame(p, rest);
    DecodeCons(Be16(|p|) + p + rest, p, rest);
  }

  lemma DecodeThen(p: Packet, enc: seq<byte>, tail: seq<Packet>, rest: seq<byte>)
    requires |p| < 65536 && Decode(enc + rest) == tail + Decode(rest)
    ensures Decode(Be16(|p|) + p + enc + rest) == [p] + tail + Decode(rest)
  {
    DecodeFrame(p, enc + rest);
    ConcatAssoc(Be16(|p|) + p, enc, rest);
    ConcatAssoc([p], tail, Decode(rest));
  }

  /** Decoding undoes encoding whatever follows, so the encoding is uniquely decodable. */
  lemma {:induction false} DecodeEncode(ps: seq<Packet>, rest: seq<byte>)
    requires Fits16(ps)
    ensures Decode(Encode(ps) + rest) == ps + Decode(rest)
  {
    if ps == [] {
      assert Encode(ps) + rest == rest;
    } else {
      DecodeEncode(ps[1..], rest);
      DecodeThen(ps[0], Encode(ps[1..]), ps[1..], rest);
      assert ps == [ps[0]] + ps[1..];
    }
  }

  /** On arbitrary bytes, the packets decoded are the contents of a prefix of the input. */
  lemma {:induction false} DecodeIsSound(data: seq<byte>)
    ensures Fits16(Decode(data)) && Encode(Decode(data)) <= data
    decreases |data|
  {
    match Head(data)
    case NoFrame =>
    case Frame(p, rest) =>
      DecodeIsSound(rest);
      DecodeCons(data, p, rest);
      var ps := Decode(data);
      assert ps[0] == p && ps[1..] == Decode(rest);
      HeadIsPrefix(data);
      assert Encode(ps) == Be16(|p|) + p + Encode(Decode(rest));
  }

  /** ... and no longer packet sequence encodes to a prefix of the input. */
  lemma DecodeIsLongest(data: seq<byte>, ps: seq<Packet>)
    requires Fits16(ps) && Encode(ps) <= data
    ensures ps <= Decode(data)
  {
    var rest := data[|Encode(ps)|..];
    assert data == Encode(ps) + rest;
    DecodeEncode(ps, rest);
  }

  lemma HeadOfLong(p: Packet, rest: seq<byte>)
    requires |p| >= 65536
    ensures Head(Be16(|p|) + p + rest).p != p
  {
    var data := Be16(|p|) + p + rest;
    Be16RoundTrip(|p|);
    assert FromBe16(data[0], data[1]) == |p| % 65536;
  }

  /** The round trip is exact precisely for packets whose length fits the 16-bit prefix. */
  lemma {:induction false} RoundTripIff(ps: seq<Packet>)
    ensures Decode(Encode(ps)) == ps <==> Fits16(ps)
  {
    if Fits16(ps) {
      DecodeEncode(ps, []);
      assert Encode(ps) + [] == Encode(ps) && ps + Decode([]) == ps;
    } else if |ps[0]| < 65536 {
      RoundTripIff(ps[1..]);
      assert !Fits16(ps[1..]);
      DecodeFrame(ps[0], Encode(ps[1..]));
      assert ([ps[0]] + Decode(Encode(ps[1..])))[1..] == Decode(Encode(ps[1..]));
    } else {
      HeadOfLong(ps[0], Encode(ps[1..]));
    }
  }

  // ----- The batcher -----

  /** `add`: the packets now pending, and the batch to send if the packet did not fit. */
  function AddPacket(pending: seq<Packet>, p: Packet): (seq<Packet>, Option<seq<byte>>) {
    if EncodedSize(pending) + 2 + |p| > MAX_BATCH_SIZE && pending != [] then ([p], Some(Encode(pending)))
    else (pending + [p], None)
  }

  class DatagramBatcher {
    var pending: seq<Packet>
    var pendingSize: nat

    ghost predicate Valid()
      reads this
    {
      pendingSize == EncodedSize(pending)
    }

    constructor ()
      ensures Valid() && pending == []
    {
      pending, pendingSize := [], 0;
    }

    method Add(packet: Packet) returns (batch: Option<seq<byte>>)
      requires Valid()
      modifies this
      ensures Valid() && (pending, batch) == AddPacket(old(pending), packet)
    {
      var entrySize := 2 + |packet|;
      EncodeSnoc([], packet);
      EncodeSnoc(pending, packet);
      assert [] + [packet] == [packet];
      if pendingSize + entrySize > MAX_BATCH_SIZE && pending != [] {
        var full := Flush();
        pending := [packet];
        pendingSize := entrySize;
        batch := Some(full);
      } else {
        pending := pending + [packet];
        pendingSize := pendingSize + entrySize;
        batch := None;
      }
    }

    method Flush() returns (batch: seq<byte>)
      requires Valid()
      modifies this
      ensures Valid() && pending == [] && batch == Encode(old(pending))
    {
      if pending == [] {
        return [];
      }
      batch := BatchEncode(pending);
      pending := [];
      pendingSize := 0;
    }

    method HasPending() returns (r: bool)
      ensures r <==> pending != []
    {
      r := pending != [];
    }
  }

  // ----- Runs of the batcher -----

  datatype BatcherOp = AddOp(p: Packet) | FlushOp

  datatype Batched = Batched(pending: seq<Packet>, emitted: seq<seq<byte>>)

  function StepBatcher(b: Batched, op: BatcherOp): Batched {
    match op
    case FlushOp => Batched([], b.emitted + [Encode(b.pending)])
    case AddOp(p) =>
      var (pending, batch) := AddPacket(b.pending, p);
      Batched(pending, if batch.Some? then b.emitted + [batch.value] else b.emitted)
  }

  function RunBatcher(ops: seq<BatcherOp>): Batched {
    if ops == [] then Batched([], []) else StepBatcher(RunBatcher(ops[..|ops| - 1]), ops[|ops| - 1])
  }

  function Added(ops: seq<BatcherOp>): seq<Packet> {
    if ops == [] then []
    else
      var op := ops[|ops| - 1];
      Added(ops[..|ops| - 1]) + if op.AddOp? then [op.p] else []
  }

  function DecodeAll(batches: seq<seq<byte>>): seq<Packet> {
    if batches == [] then [] else DecodeAll(batches[..|batches| - 1]) + Decode(batches[|batches| - 1])
  }

  lemma DecodeAllSnoc(batches: seq<seq<byte>>, batch: seq<byte>)
    ensures DecodeAll(batches + [batch]) == DecodeAll(batches) + Decode(batch)
  {
    assert (batches + [batch])[..|batches|] == batches;
  }

  predicate Small(ps: seq<Packet>) { forall p :: p in ps ==> |p| < BATCH_SIZE_THRESHOLD }

  /** A batch that fits a datagram and that a receiver tells from an IP packet by its first nibble. */
  predicate GoodBatch(batch: seq<byte>) {
    |batch| <= 1100 && (batch != [] ==> batch[0] / 16 == 0)
  }

  lemma EncodeIsGood(ps: seq<Packet>)
    requires Small(ps) && EncodedSize(ps) <= MAX_BATCH_SIZE
    ensures GoodBatch(Encode(ps)) && Decode(Encode(ps)) == ps
    ensures Encode(ps) == [] <==> ps == []
  {
    EncodedSizeIsLength(ps);
    RoundTripIff(ps);
    if ps != [] {
      assert ps[0] in ps;
      assert Encode(ps)[0] == Be16(|ps[0]|)[0];
    }
  }

  predicate Delivering(b: Batched, added: seq<Packet>) {
    && Small(b.pending) && EncodedSize(b.pending) <= MAX_BATCH_SIZE
    && (forall batch :: batch in b.emitted ==> GoodBatch(batch))
    && DecodeAll(b.emitted) + b.pending == added
  }

  /** A batch is emitted exactly when the new packet would make it too long. */
  lemma AddFits(pending: seq<Packet>, p: Packet)
    requires Small(pending) && EncodedSize(pending) <= MAX_BATCH_SIZE && |p| < BATCH_SIZE_THRESHOLD
    ensures var (after, batch) := AddPacket(pending, p);
      && Small(after) && EncodedSize(after) <= MAX_BATCH_SIZE
      && (if batch.Some? then batch.value == Encode(pending) && after == [p] else after == pending + [p])
      && (batch.Some? <==> |Encode(pending + [p])| > 1100)
  {
    EncodedSizeIsLength(pending + [p]);
    EncodeSnoc(pending, p);
    EncodeSnoc([], p);
    assert [] + [p] == [p];
  }

  lemma StepDelivers(b: Batched, op: BatcherOp, added: seq<Packet>)
    requires Delivering(b, added) && (op.AddOp? ==> |op.p| < BATCH_SIZE_THRESHOLD)
    ensures Delivering(StepBatcher(b, op), added + if op.AddOp? then [op.p] else [])
  {
    EncodeIsGood(b.pending);
    DecodeAllSnoc(b.emitted, Encode(b.pending));
    if op.AddOp? {
      AddFits(b.pending, op.p);
    }
  }

  /** For every sequence of adds and flushes of small packets: the pending packets fit one batch,
      every batch emitted is at most 1100 bytes and starts with nibble 0, and the batches emitted,
      decoded, followed by the pending packets are everything added, in order. */
  lemma {:induction false} BatcherDelivers(ops: seq<BatcherOp>)
    requires forall op :: op in ops && op.AddOp? ==> |op.p| < 300
    ensures Delivering(RunBatcher(ops), Added(ops))
  {
    if ops == [] {
    } else {
      BatcherDelivers(ops[..|ops| - 1]);
      StepDelivers(RunBatcher(ops[..|ops| - 1]), ops[|ops| - 1], Added(ops[..|ops| - 1]));
    }
  }
}
