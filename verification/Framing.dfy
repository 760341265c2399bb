/** The TCP Reality stream (`tcp_reality.rs`, and both directions of `run_tcp_reality_tunnel`):
    packets framed by a 16-bit length over a byte stream that arrives in arbitrary chunks. */
module Framing {
  import opened Bytes
  import opened Batch

  const INITIAL_BUFFER: nat := 1500

  /** Where the reader is: inside a length prefix, inside a packet, or stopped by a zero length. */
  datatype Reader =
    | ReadLength(have: seq<byte>)
    | ReadBody(len: nat, got: seq<byte>)
    | Failed

  const START: Reader := ReadLength([])

  datatype Progress = Progress(reader: Reader, packets: seq<Packet>)

  function FeedByte(r: Reader, b: byte): Progress {
    match r
    case Failed => Progress(Failed, [])
    case ReadLength(have) =>
      if |have| == 0 then Progress(ReadLength([b]), [])
      else
        var len := FromBe16(have[0], b);
        Progress(if len == 0 then Failed else ReadBody(len, []), [])
    case ReadBody(len, got) =>
      if |got| + 1 < len then Progress(ReadBody(len, got + [b]), [])
      else Progress(START, [got + [b]])
  }

  function Feed(r: Reader, bytes: seq<byte>): Progress
    decreases |bytes|
  {
    if bytes == [] then Progress(r, [])
    else
      var first := FeedByte(r, bytes[0]);
      var rest := Feed(first.reader, bytes[1..]);
      Progress(rest.reader, first.packets + rest.packets)
  }

  function FeedChunks(r: Reader, chunks: seq<seq<byte>>): Progress
    decreases |chunks|
  {
    if chunks == [] then Progress(r, [])
    else
      var first := Feed(r, chunks[0]);
      var rest := FeedChunks(first.reader, chunks[1..]);
      Progress(rest.reader, first.packets + rest.packets)
  }

  lemma FeedStep(r: Reader, bytes: seq<byte>)
    requires bytes != []
    ensures var first := FeedByte(r, bytes[0]); var rest := Feed(first.reader, bytes[1..]);
      Feed(r, bytes) == Progress(rest.reader, first.packets + rest.packets)
  {
  }

  lemma {:induction false} FeedConcat(r: Reader, a: seq<byte>, b: seq<byte>)
    ensures Feed(r, a + b).reader == Feed(Feed(r, a).reader, b).reader
    ensures Feed(r, a + b).packets == Feed(r, a).packets + Feed(Feed(r, a).reader, b).packets
    decreases |a|
  {
    if a == [] {
      assert a + b == b;
    } else {
      var first := FeedByte(r, a[0]);
      var rest := Feed(first.reader, a[1..]);
      assert (a + b)[0] == a[0] && (a + b)[1..] == a[1..] + b;
      FeedStep(r, a + b);
      FeedStep(r, a);
      FeedConcat(first.reader, a[1..], b);
      ConcatAssoc(first.packets, rest.packets, Feed(rest.reader, b).packets);
    }
  }

  /** On arbitrary bytes, well framed or not, how the stream is cut into chunks does not matter. */
  lemma {:induction false} ChunkingIsIrrelevant(r: Reader, chunks: seq<seq<byte>>)
    ensures FeedChunks(r, chunks) == Feed(r, Flatten(chunks))
    decreases |chunks|
  {
    if chunks == [] {
    } else {
      ChunkingIsIrrelevant(Feed(r, chunks[0]).reader, chunks[1..]);
      FeedConcat(r, chunks[0], Flatten(chunks[1..]));
    }
  }

  /** Reading on from `pos` to `next`. */
  lemma FeedFurther(r: Reader, chunk: seq<byte>, pos: nat, next: nat, before: Progress, more: Progress)
    requires pos <= next <= |chunk|
    requires Feed(r, chunk[..pos]) == before && Feed(before.reader, chunk[pos..next]) == more
    ensures Feed(r, chunk[..next]) == Progress(more.reader, before.packets + more.packets)
  {
    FeedConcat(r, chunk[..pos], chunk[pos..next]);
    assert chunk[..next] == chunk[..pos] + chunk[pos..next];
  }

  /** A failed reader stays where it is. */
  lemma FeedRest(r: Reader, chunk: seq<byte>, pos: nat, before: Progress)
    requires pos <= |chunk| && Feed(r, chunk[..pos]) == before && before.reader == Failed
    ensures Feed(r, chunk) == before
  {
    FeedFailed(chunk[pos..|chunk|]);
    FeedFurther(r, chunk, pos, |chunk|, before, Progress(Failed, []));
    assert chunk[..|chunk|] == chunk && before.packets + [] == before.packets;
  }

  lemma FeedOne(r: Reader, chunk: seq<byte>, pos: nat)
    requires pos < |chunk|
    ensures Feed(r, chunk[pos..pos + 1]) == FeedByte(r, chunk[pos])
  {
    assert chunk[pos..pos + 1] == [chunk[pos]] && [chunk[pos]][1..] == [];
  }

  lemma {:induction false} FeedFailed(bytes: seq<byte>)
    ensures Feed(Failed, bytes) == Progress(Failed, [])
    decreases |bytes|
  {
    if bytes == [] {
    } else {
      FeedFailed(bytes[1..]);
    }
  }

  /** A run of bytes that stays inside the current packet, or just completes it. */
  lemma {:induction false} FeedBody(len: nat, got: seq<byte>, bytes: seq<byte>)
    requires bytes != [] && |got| + |bytes| <= len
    ensures Feed(ReadBody(len, got), bytes) ==
      if |got| + |bytes| < len then Progress(ReadBody(len, got + bytes), []) else Progress(START, [got + bytes])
    decreases |bytes|
  {
    var more, rest := got + [bytes[0]], bytes[1..];
    if rest == [] {
      FeedStep(ReadBody(len, got), bytes);
      assert more == got + bytes;
    } else {
      FeedStep(ReadBody(len, got), bytes);
      FeedBody(len, more, rest);
      assert more + rest == got + bytes;
    }
  }

  lemma FeedLength(hi: byte, lo: byte)
    ensures Feed(START, [hi, lo]) ==
      Progress(if FromBe16(hi, lo) == 0 then Failed else ReadBody(FromBe16(hi, lo), []), [])
  {
    assert [hi, lo][1..] == [lo] && [lo][1..] == [];
    assert Feed(ReadLength([hi]), [lo]).reader == FeedByte(ReadLength([hi]), lo).reader;
  }

  lemma FeedHeader(n: nat)
    ensures Feed(START, Be16(n)) == Progress(if n % 65536 == 0 then Failed else ReadBody(n % 65536, []), [])
  {
    var header := Be16(n);
    Be16RoundTrip(n);
    FeedLength(header[0], header[1]);
    assert header == [header[0], header[1]];
  }

  lemma FeedFramed(header: seq<byte>, len: nat, body: seq<byte>)
    requires Feed(START, header) == Progress(ReadBody(len, []), []) && |body| == len > 0
    ensures Feed(START, header + body) == Progress(START, [body])
  {
    FeedConcat(START, header, body);
    FeedBody(len, [], body);
    assert [] + body == body;
  }

  predicate Framable(p: Packet) { 1 <= |p| <= 65535 }

  lemma FeedFrame(p: Packet, header: seq<byte>)
    requires Framable(p) && header == Be16(|p|)
    ensures Feed(START, header + p) == Progress(START, [p])
  {
    assert Feed(START, header) == Progress(ReadBody(|p|, []), []) by { FeedHeader(|p|); }
    FeedFramed(header, |p|, p);
  }

  /** What the sender puts on the stream, in whatever chunks it arrives, is exactly what the reader
      yields, and the reader is left at a packet boundary with no bytes over. */
  lemma {:induction false} FeedEncoded(ps: seq<Packet>)
    requires forall p :: p in ps ==> Framable(p)
    ensures Feed(START, Encode(ps)) == Progress(START, ps)
  {
    if ps == [] {
    } else {
      assert ps[0] in ps;
      FeedFrame(ps[0], Be16(|ps[0]|));
      FeedConcat(START, Be16(|ps[0]|) + ps[0], Encode(ps[1..]));
      FeedEncoded(ps[1..]);
      assert [ps[0]] + ps[1..] == ps;
    }
  }

  lemma FramingDelivers(ps: seq<Packet>, chunks: seq<seq<byte>>)
    requires (forall p :: p in ps ==> Framable(p)) && Flatten(chunks) == Encode(ps)
    ensures FeedChunks(START, chunks) == Progress(START, ps)
  {
    ChunkingIsIrrelevant(START, chunks);
    FeedEncoded(ps);
  }

  /** The packets the client's `send` accepts; longer ones are refused as too large. */
  function Sendable(ps: seq<Packet>): seq<Packet> {
    if ps == [] then []
    else
      var p := ps[|ps| - 1];
      Sendable(ps[..|ps| - 1]) + if |p| > 65535 then [] else [p]
  }

  /** The sender drops the packets over 65535 bytes and keeps all others, in order. */
  lemma SendableKeeps(ps: seq<Packet>, p: Packet)
    ensures Sendable([]) == []
    ensures Sendable(ps + [p]) == if |p| <= 65535 then Sendable(ps) + [p] else Sendable(ps)
  {
    assert (ps + [p])[..|ps|] == ps;
    assert Sendable(ps) + [] == Sendable(ps);
  }

  lemma {:induction false} SendableIsAll(ps: seq<Packet>)
    requires forall p :: p in ps ==> |p| <= 65535
    ensures Sendable(ps) == ps
  {
    if ps == [] {
    } else {
      var front, p := ps[..|ps| - 1], ps[|ps| - 1];
      assert ps == front + [p];
      SendableIsAll(front);
      SendableKeeps(front, p);
    }
  }

  /** From end to end: packets of 1 to 65535 bytes handed to the sender, its stream cut in any way,
      come out of the reader exactly. */
  lemma SentIsRead(packets: seq<Packet>, chunks: seq<seq<byte>>)
    requires (forall p :: p in packets ==> 1 <= |p| <= 65535) && Flatten(chunks) == Encode(Sendable(packets))
    ensures FeedChunks(START, chunks) == Progress(START, packets)
  {
    SendableIsAll(packets);
    FramingDelivers(packets, chunks);
  }

  method SendFrames(packets: seq<Packet>) returns (stream: seq<byte>)
    ensures stream == Encode(Sendable(packets))
  {
    stream := [];
    for i := 0 to |packets|
      invariant stream == Encode(Sendable(packets[..i]))
    {
      assert packets[..i + 1][..i] == packets[..i];
      var p := packets[i];
      assert Sendable(packets[..i + 1]) == Sendable(packets[..i]) + if |p| > 65535 then [] else [p];
      assert Sendable(packets[..i]) + [] == Sendable(packets[..i]);
      EncodeSnoc(Sendable(packets[..i]), p);
      if |p| <= 65535 {
        stream := stream + Be16(|p|) + p;
      }
    }
    assert packets[..|packets|] == packets;
  }

  /** While the stream is still arriving the reader has yielded a prefix of the packets sent. */
  lemma PartialStreamIsPrefix(ps: seq<Packet>, chunks: seq<seq<byte>>)
    requires (forall p :: p in ps ==> Framable(p)) && Flatten(chunks) <= Encode(ps)
    ensures FeedChunks(START, chunks).packets <= ps
  {
    var seen := Flatten(chunks);
    ChunkingIsIrrelevant(START, chunks);
    FeedEncoded(ps);
    FeedConcat(START, seen, Encode(ps)[|seen|..]);
    assert seen + Encode(ps)[|seen|..] == Encode(ps);
  }

  /** A first frame whose length prefix is too small for the packet yields something else. */
  lemma ShortFrame(header: seq<byte>, len: nat, p: Packet, rest: seq<byte>)
    requires Feed(START, header) == Progress(ReadBody(len, []), []) && 0 < len < |p|
    ensures var r := Feed(START, header + p + rest); r.packets != [] && r.packets[0] != p
  {
    var body, more := p[..len], p[len..] + rest;
    FeedFramed(header, len, body);
    FeedConcat(START, header + body, more);
    assert p == body + p[len..];
    assert header + p + rest == header + body + more;
  }

  lemma FailedFrame(header: seq<byte>, p: Packet, rest: seq<byte>)
    requires Feed(START, header) == Progress(Failed, [])
    ensures Feed(START, header + p + rest).reader == Failed
  {
    ConcatAssoc(header, p, rest);
    FeedConcat(START, header, p + rest);
    FeedFailed(p + rest);
  }

  lemma BadFrame(p: Packet, rest: seq<byte>)
    requires !Framable(p)
    ensures var r := Feed(START, Be16(|p|) + p + rest);
      r.reader == Failed || (r.packets != [] && r.packets[0] != p)
  {
    FeedHeader(|p|);
    if |p| % 65536 == 0 {
      FailedFrame(Be16(|p|), p, rest);
    } else {
      ShortFrame(Be16(|p|), |p| % 65536, p, rest);
    }
  }

  /** The framing is exact precisely for packets of 1 to 65535 bytes: an empty packet stops the
      reader, and a longer one is cut short by its truncated length. */
  lemma {:induction false} FramingExactIff(ps: seq<Packet>)
    ensures Feed(START, Encode(ps)) == Progress(START, ps) <==> forall p :: p in ps ==> Framable(p)
  {
    if forall p :: p in ps ==> Framable(p) {
      FeedEncoded(ps);
    } else if Framable(ps[0]) {
      FeedFrame(ps[0], Be16(|ps[0]|));
      FeedConcat(START, Be16(|ps[0]|) + ps[0], Encode(ps[1..]));
      FramingExactIff(ps[1..]);
      assert ([ps[0]] + Feed(START, Encode(ps[1..])).packets)[1..] == Feed(START, Encode(ps[1..])).packets;
    } else {
      BadFrame(ps[0], Encode(ps[1..]));
    }
  }

  // ----- The reader with its reused, growing buffer -----

  class FrameReader {
    var pktBuf: array<byte>
    var header: seq<byte>
    var inBody: bool
    var len: nat
    var filled: nat
    var failed: bool

    ghost predicate Valid()
      reads this
    {
      && |header| < 2
      && (inBody ==> header == [] && filled < len <= pktBuf.Length)
    }

    /** Only the filled part of the buffer counts; what earlier packets left in it does not. */
    ghost function State(): Reader
      requires Valid()
      reads this, pktBuf
    {
      if failed then Failed else if inBody then ReadBody(len, pktBuf[..filled]) else ReadLength(header)
    }

    constructor ()
      ensures Valid() && State() == START && fresh(pktBuf)
    {
      pktBuf := new byte[INITIAL_BUFFER](_ => 0);
      header, inBody, len, filled, failed := [], false, 0, 0, false;
    }

    /** `pkt_buf.resize(len, 0)` when the packet is longer than any before it. */
    method Grow(n: nat)
      requires Valid() && !inBody
      modifies this`pktBuf
      ensures pktBuf == old(pktBuf) || fresh(pktBuf)
      ensures n <= pktBuf.Length
    {
      if n > pktBuf.Length {
        var bigger := new byte[n](_ => 0);
        for i := 0 to pktBuf.Length
          invariant pktBuf == old(pktBuf)
        {
          bigger[i] := pktBuf[i];
        }
        pktBuf := bigger;
      }
    }

    method TakeLengthByte(b: byte)
      requires Valid() && !inBody && !failed
      modifies this
      ensures Valid() && (pktBuf == old(pktBuf) || fresh(pktBuf))
      ensures Progress(State(), []) == FeedByte(old(State()), b)
    {
      if |header| == 0 {
        header := [b];
        return;
      }
      var n := FromBe16(header[0], b);
      header := [];
      if n == 0 {
        failed := true;
        return;
      }
      Grow(n);
      len, filled, inBody := n, 0, true;
      assert pktBuf[..0] == [];
    }

    method CopyIn(bytes: seq<byte>)
      requires filled + |bytes| <= pktBuf.Length
      modifies pktBuf
      ensures pktBuf[..filled + |bytes|] == old(pktBuf[..filled]) + bytes
    {
      for i := 0 to |bytes|
        invariant pktBuf[..filled] == old(pktBuf[..filled])
        invariant pktBuf[filled..filled + i] == bytes[..i]
      {
        pktBuf[filled + i] := bytes[i];
      }
      assert pktBuf[..filled + |bytes|] == pktBuf[..filled] + pktBuf[filled..filled + |bytes|];
    }

    /** `read_exact(&mut pkt_buf[..len])` as far as the bytes at hand go. */
    method TakeBody(bytes: seq<byte>) returns (packets: seq<Packet>)
      requires Valid() && inBody && !failed && bytes != [] && filled + |bytes| <= len
      modifies this, pktBuf
      ensures Valid() && pktBuf == old(pktBuf)
      ensures Progress(State(), packets) == Feed(old(State()), bytes)
    {
      FeedBody(len, pktBuf[..filled], bytes);
      CopyIn(bytes);
      filled := filled + |bytes|;
      if filled < len {
        return [];
      }
      packets := [pktBuf[..len]];
      inBody := false;
    }

    /** One chunk off the stream. */
    method Consume(chunk: seq<byte>) returns (packets: seq<Packet>)
      requires Valid()
      modifies this, pktBuf
      ensures Valid() && (pktBuf == old(pktBuf) || fresh(pktBuf))
      ensures Progress(State(), packets) == Feed(old(State()), chunk)
    {
      packets := [];
      var pos := 0;
      ghost var start := State();
      assert chunk[..0] == [];
      while pos < |chunk|
        invariant 0 <= pos <= |chunk| && Valid()
        invariant pktBuf == old(pktBuf) || fresh(pktBuf)
        invariant Progress(State(), packets) == Feed(start, chunk[..pos])
      {
        ghost var before := Progress(State(), packets);
        if failed {
          FeedRest(start, chunk, pos, before);
          return;
        }
        if !inBody {
          TakeLengthByte(chunk[pos]);
          FeedOne(before.reader, chunk, pos);
          FeedFurther(start, chunk, pos, pos + 1, before, Progress(State(), []));
          pos := pos + 1;
        } else {
          var n := if len - filled <= |chunk| - pos then len - filled else |chunk| - pos;
          var more := TakeBody(chunk[pos..pos + n]);
          packets := packets + more;
          FeedFurther(start, chunk, pos, pos + n, before, Progress(State(), more));
          pos := pos + n;
        }
      }
      assert chunk[..pos] == chunk;
    }
  }
}
