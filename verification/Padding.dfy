/** `padding.rs`: packets padded to sizes common in HTTP/3, and stripped by their own header. */
module Padding {
  import opened Bytes

  const STANDARD_SIZES: seq<nat> := [128, 256, 512, 1024, 1200, 1400]

  /** The least standard size that holds n bytes, or n if none does. */
  function TargetSize(n: nat): (target: nat)
    ensures n <= target
    ensures target in STANDARD_SIZES || (target == n && forall s :: s in STANDARD_SIZES ==> s < n)
    ensures forall s :: s in STANDARD_SIZES && n <= s ==> target <= s
  {
    if n <= 128 then 128 else if n <= 256 then 256 else if n <= 512 then 512
    else if n <= 1024 then 1024 else if n <= 1200 then 1200 else if n <= 1400 then 1400 else n
  }

  function Zeros(n: nat): seq<byte> { seq(n, _ => 0) }

  function Pad(p: Packet): Packet { p + Zeros(TargetSize(|p|) - |p|) }

  /** The packet, and zeros up to the target size. */
  lemma PadShape(p: Packet)
    ensures |Pad(p)| == TargetSize(|p|) && p <= Pad(p)
    ensures forall i :: |p| <= i < |Pad(p)| ==> Pad(p)[i] == 0
    ensures |Pad(p)| in {128, 256, 512, 1024, 1200, 1400} || (|p| > 1400 && Pad(p) == p)
  {
  }

  method PadToStandard(data: Packet) returns (padded: Packet)
    ensures padded == Pad(data)
  {
    var target := |data|;
    var i := 0;
    while i < |STANDARD_SIZES| && STANDARD_SIZES[i] < |data|
      invariant 0 <= i <= |STANDARD_SIZES|
      invariant forall k :: 0 <= k < i ==> STANDARD_SIZES[k] < |data|
    {
      i := i + 1;
    }
    if i < |STANDARD_SIZES| {
      target := STANDARD_SIZES[i];
    }
    assert target == TargetSize(|data|) by {
      if i == |STANDARD_SIZES| {
        assert STANDARD_SIZES[5] < |data|;
      } else if i > 0 {
        assert STANDARD_SIZES[i - 1] < |data|;
      }
    }
    padded := data;
    while |padded| < target
      invariant |data| <= |padded| <= target
      invariant padded == data + Zeros(|padded| - |data|)
    {
      padded := padded + [0];
      assert Zeros(|padded| - |data|) == Zeros(|padded| - 1 - |data|) + [0];
    }
  }

  /** The length a packet's own header declares: total length for IPv4 (section 3.1 of RFC 791),
      payload length plus 40 for IPv6 (section 3 of RFC 8200). */
  function DeclaredLength(data: seq<byte>): Option<nat> {
    if data == [] then None
    else if HighNibble(data[0]) == 4 && |data| >= 4 then Some(FromBe16(data[2], data[3]))
    else if HighNibble(data[0]) == 6 && |data| >= 6 then Some(FromBe16(data[4], data[5]) + 40)
    else None
  }

  function Strip(data: seq<byte>): seq<byte> {
    match DeclaredLength(data)
    case None => data
    case Some(len) => if 0 < len <= |data| then data[..len] else data
  }

  /** Stripping only ever shortens, to the length the header declares if that many bytes are there. */
  lemma StripIsPrefix(data: seq<byte>)
    ensures Strip(data) <= data
    ensures |data| >= 4 && data[0] / 16 == 4 && 0 < 256 * (data[2] as int) + data[3] as int <= |data| ==>
      |Strip(data)| == 256 * (data[2] as int) + data[3] as int
    ensures |data| >= 6 && data[0] / 16 == 6 && 256 * (data[4] as int) + data[5] as int + 40 <= |data| ==>
      |Strip(data)| == 256 * (data[4] as int) + data[5] as int + 40
  {
  }

  /** A packet whose header tells the truth about its length. */
  predicate WellFormed(p: Packet) { p != [] && DeclaredLength(p) == Some(|p|) }

  lemma PadKeepsHeader(p: Packet)
    requires DeclaredLength(p).Some?
    ensures DeclaredLength(Pad(p)) == DeclaredLength(p)
  {
  }

  /** Stripping undoes padding for every well-formed packet, IPv4 and IPv6, and stripping a packet
      that was never padded changes nothing. */
  lemma StripUndoesPad(p: Packet)
    requires WellFormed(p)
    ensures Strip(Pad(p)) == p && Strip(p) == p
  {
    PadKeepsHeader(p);
  }

  /** Exactly when stripping undoes padding, for any bytes: the header is truthful, or there was no
      padding to strip and `strip_padding` has no usable length to go by. */
  lemma StripUndoesPadIff(p: Packet)
    ensures Strip(Pad(p)) == p <==>
      match DeclaredLength(p)
      case Some(len) => len == |p| || (TargetSize(|p|) == |p| && (len == 0 || len > |p|))
      case None => TargetSize(|p|) == |p|
  {
    match DeclaredLength(p) {
      case Some(len) => StripDeclared(p, len);
      case None => StripUndeclared(p);
    }
  }

  lemma StripDeclared(p: Packet, len: nat)
    requires DeclaredLength(p) == Some(len)
    ensures Strip(Pad(p)) == p <==> len == |p| || (TargetSize(|p|) == |p| && (len == 0 || len > |p|))
  {
    PadKeepsHeader(p);
    if len > |p| && len <= |Pad(p)| {
      assert |Strip(Pad(p))| == len;
    }
  }

  /** A packet too short for its header is padded into one that declares a length of its own: zero,
      40, or more than there is. */
  lemma StripUndeclared(p: Packet)
    requires DeclaredLength(p) == None
    ensures Strip(Pad(p)) == p <==> TargetSize(|p|) == |p|
  {
    if TargetSize(|p|) == |p| {
      assert Pad(p) == p;
    } else {
      assert |Strip(Pad(p))| != |p|;
    }
  }

  /** `IdlePadder::generate` on given random bytes: the first nibble is cleared. */
  function IdleDummy(random: seq<byte>): seq<byte>
    requires random != []
  {
    [random[0] % 16] + random[1..]
  }

  /** A dummy is as long as asked for, random but for its first nibble, and so never an IP packet. */
  lemma DummyShape(random: seq<byte>)
    requires random != []
    ensures var d := IdleDummy(random); |d| == |random| && d[0] / 16 == 0 && d[1..] == random[1..]
  {
  }
}
