/** `AdaptiveShaper` of `shaper.rs`: a rate limiter whose rate follows the queuing delay.
    Methods are atomic here; `ShaperSteps` interleaves them. RTTs are microseconds. */
module AdaptiveShaper {
  import opened Arithmetic
  import opened TokenBucket

  const MIN_RATE: nat := 125_000
  const QDELAY_LOW: nat := 5_000
  const QDELAY_HIGH: nat := 25_000

  datatype Shaper = Shaper(bucket: Bucket, base: nat, current: nat, maxRate: nat,
                           droppedBytes: nat, droppedPackets: nat)

  function Max(a: nat, b: nat): nat { if a <= b then b else a }

  function RateOfMbps(mbps: nat): nat { mbps * 1_000_000 / 8 }

  function NewShaper(mbps: nat): Shaper {
    var rate := RateOfMbps(mbps);
    Shaper(NewBucket(rate, BurstFor(rate)), U64_MAX, rate, rate, 0, 0)
  }

  /** The controller's next rate: 5% up, 10% down or unchanged, clamped. */
  function Adjust(current: nat, qdelay: nat, maxRate: nat): nat {
    if qdelay < QDELAY_LOW then Min(current + current / 20, maxRate)
    else if qdelay > QDELAY_HIGH then Max(current - current / 10, MIN_RATE)
    else current
  }

  function UpdateRtt(s: Shaper, rtt: nat): Shaper {
    if s.maxRate == 0 then s
    else
      var base := Min(s.base, rtt);
      if base == U64_MAX then s.(base := base)
      else
        var rate := Adjust(s.current, SaturatingSub(rtt, base), s.maxRate);
        if rate == s.current then s.(base := base)
        else s.(base := base, current := rate, bucket := SetRate(s.bucket, rate))
  }

  /** `RateLimiter::check`: a rejected packet is counted. */
  function Admit(s: Shaper, bytes: nat, now: nat): (Shaper, bool) {
    var (bucket, allowed) := Check(s.bucket, bytes, now);
    if allowed then (s.(bucket := bucket), true)
    else (s.(bucket := bucket, droppedBytes := s.droppedBytes + bytes,
             droppedPackets := s.droppedPackets + 1), false)
  }

  class AdaptiveShaper {
    const bucket: TokenBucket
    var baseRtt: nat
    var currentRate: nat
    const maxRate: nat
    var droppedBytes: nat
    var droppedPackets: nat

    ghost function State(): Shaper
      reads this, bucket
    {
      Shaper(bucket.State(), baseRtt, currentRate, maxRate, droppedBytes, droppedPackets)
    }

    constructor (mbps: nat)
      ensures State() == NewShaper(mbps) && fresh(bucket)
    {
      var rate := if mbps > 0 then mbps * 1_000_000 / 8 else 0;
      var burst := if rate > 0 then rate / 10 else 0;
      bucket := new TokenBucket(rate, burst);
      baseRtt := U64_MAX;
      currentRate := rate;
      maxRate := rate;
      droppedBytes, droppedPackets := 0, 0;
    }

    method CheckPacket(bytes: nat, now: nat) returns (allowed: bool)
      modifies this, bucket
      ensures (State(), allowed) == Admit(old(State()), bytes, now)
    {
      allowed := bucket.TryConsume(bytes, now);
      if !allowed {
        droppedBytes := droppedBytes + bytes;
        droppedPackets := droppedPackets + 1;
      }
    }

    method ObserveRtt(rtt: nat)
      modifies this, bucket
      ensures State() == UpdateRtt(old(State()), rtt)
    {
      if maxRate == 0 {
        return;
      }
      if rtt < baseRtt {
        baseRtt := rtt;
      }
      if baseRtt == U64_MAX {
        return;
      }
      var qdelay := SaturatingSub(rtt, baseRtt);
      var next := currentRate;
      if qdelay < QDELAY_LOW {
        next := Min(currentRate + currentRate / 20, maxRate);
      } else if qdelay > QDELAY_HIGH {
        next := Max(currentRate - currentRate / 10, MIN_RATE);
      }
      if next != currentRate {
        currentRate := next;
        bucket.ChangeRate(next);
      }
    }
  }

  // ----- Runs -----

  datatype Event = Rtt(us: nat) | Packet(bytes: nat, now: nat)

  function StepShaper(s: Shaper, e: Event): Shaper {
    match e
    case Rtt(us) => UpdateRtt(s, us)
    case Packet(bytes, now) => Admit(s, bytes, now).0
  }

  function RunShaper(s: Shaper, es: seq<Event>): Shaper
    decreases |es|
  {
    if es == [] then s else StepShaper(RunShaper(s, es[..|es| - 1]), es[|es| - 1])
  }

  /** `base` is the least round trip in the run, or u64::MAX before the first one. */
  predicate IsLeastRtt(base: nat, es: seq<Event>) {
    && (forall e :: e in es && e.Rtt? ==> base <= e.us)
    && (base == U64_MAX || Rtt(base) in es)
  }

  predicate Consistent(s: Shaper, es: seq<Event>) {
    && 125_000 <= s.current <= s.maxRate
    && s.bucket.rate == s.current
    && 10 * s.bucket.burst <= s.current < 10 * (s.bucket.burst + 1)
    && s.bucket.tokens <= s.bucket.burst * MILLI
    && IsLeastRtt(s.base, es)
  }

  /** For every non-zero cap and every interleaving of packets and RTT samples: the rate stays in
      [1 Mbit/s, cap] and is the bucket's rate, the burst is a tenth of it, the bucket holds at
      most one burst, and the base RTT is the least sample. */
  lemma {:induction false} RunIsConsistent(mbps: nat, es: seq<Event>)
    requires mbps > 0 && forall e :: e in es && e.Rtt? ==> e.us <= U64_MAX
    ensures 8 * RunShaper(NewShaper(mbps), es).maxRate == 1_000_000 * mbps
    ensures Consistent(RunShaper(NewShaper(mbps), es), es)
    decreases |es|
  {
    if es == [] {
    } else {
      var front, e := es[..|es| - 1], es[|es| - 1];
      RunIsConsistent(mbps, front);
      var s := RunShaper(NewShaper(mbps), front);
      assert es == front + [e];
      StepIsConsistent(s, front, e);
    }
  }

  lemma StepIsConsistent(s: Shaper, es: seq<Event>, e: Event)
    requires Consistent(s, es) && (e.Rtt? ==> e.us <= U64_MAX)
    ensures Consistent(StepShaper(s, e), es + [e]) && StepShaper(s, e).maxRate == s.maxRate
  {
    assert e in es + [e];
    if s.base != U64_MAX {
      assert Rtt(s.base) in es + [e];
    }
  }

  /** A cap of m Mbit/s is m / 8 million bytes per second, and the bucket starts with a tenth of a
      second's worth of that. */
  lemma CapInMegabits(mbps: nat)
    ensures var s := NewShaper(mbps);
      && 8 * s.bucket.rate == 1_000_000 * mbps && 80 * s.bucket.burst == 1_000_000 * mbps
      && s.current == s.maxRate == s.bucket.rate && s.bucket.tokens == 1000 * s.bucket.burst
  {
    assert RateOfMbps(mbps) == 125_000 * mbps;
  }

  /** A cap of 0 is no cap: whatever was sent and measured before, every packet passes, nothing is
      counted as dropped, and round trips do not bring a rate about. */
  lemma NoCapAdmitsAll(es: seq<Event>, bytes: nat, now: nat)
    ensures var s := RunShaper(NewShaper(0), es);
      && Admit(s, bytes, now).1
      && s.droppedPackets == 0 && s.droppedBytes == 0 && s.current == 0 && s.bucket.rate == 0
  {
    NoCapStays(es);
  }

  lemma {:induction false} NoCapStays(es: seq<Event>)
    ensures RunShaper(NewShaper(0), es) == NewShaper(0)
    decreases |es|
  {
    if es == [] {
    } else {
      NoCapStays(es[..|es| - 1]);
    }
  }

  /** The controller raises the rate exactly when the delay is low and there is room above, and
      lowers it exactly when the delay is high and there is room below; up to rounding and clamping
      the step is 5% up and 10% down. */
  lemma AdjustDirection(current: nat, qdelay: nat, maxRate: nat)
    requires MIN_RATE <= current <= maxRate
    ensures MIN_RATE <= Adjust(current, qdelay, maxRate) <= maxRate
    ensures Adjust(current, qdelay, maxRate) > current <==> qdelay < 5_000 && current < maxRate
    ensures Adjust(current, qdelay, maxRate) < current <==> qdelay > 25_000 && current > 125_000
    ensures qdelay < 5_000 ==> Adjust(current, qdelay, maxRate) >= Min(current + 6_250, maxRate)
    ensures qdelay > 25_000 ==> Adjust(current, qdelay, maxRate) <= Max(current - 12_500, MIN_RATE)
    ensures qdelay < 5_000 ==> var r := Adjust(current, qdelay, maxRate);
      20 * r <= 21 * current && (r == maxRate || 21 * current < 20 * (r + 1))
    ensures qdelay > 25_000 ==> var r := Adjust(current, qdelay, maxRate);
      10 * r >= 9 * current && (r == 125_000 || 10 * (r - 1) < 9 * current)
  {
  }

  function AfterRtts(s: Shaper, rtts: seq<nat>): Shaper
    decreases |rtts|
  {
    if rtts == [] then s else AfterRtts(UpdateRtt(s, rtts[0]), rtts[1..])
  }

  /** The queuing delay the controller sees for a sample. */
  function QueuingDelay(s: Shaper, rtt: nat): nat { SaturatingSub(rtt, Min(s.base, rtt)) }

  predicate SustainedLow(s: Shaper, rtts: seq<nat>)
    decreases |rtts|
  {
    rtts == [] || (rtts[0] < U64_MAX && QueuingDelay(s, rtts[0]) < QDELAY_LOW
                   && SustainedLow(UpdateRtt(s, rtts[0]), rtts[1..]))
  }

  predicate SustainedHigh(s: Shaper, rtts: seq<nat>)
    decreases |rtts|
  {
    rtts == [] || (rtts[0] < U64_MAX && QueuingDelay(s, rtts[0]) > QDELAY_HIGH
                   && SustainedHigh(UpdateRtt(s, rtts[0]), rtts[1..]))
  }

  /** Sustained low delay reaches the cap within (cap - current) / 6250 samples, rounded up, and
      every further such sample leaves it there. */
  lemma {:induction false} LowDelayConverges(s: Shaper, rtts: seq<nat>)
    requires MIN_RATE <= s.current <= s.maxRate && SustainedLow(s, rtts)
    requires 6_250 * |rtts| >= s.maxRate - s.current
    ensures AfterRtts(s, rtts).current == s.maxRate
    decreases |rtts|
  {
    if rtts == [] {
    } else {
      AdjustDirection(s.current, QueuingDelay(s, rtts[0]), s.maxRate);
      LowDelayConverges(UpdateRtt(s, rtts[0]), rtts[1..]);
    }
  }

  lemma {:induction false} HighDelayConverges(s: Shaper, rtts: seq<nat>)
    requires MIN_RATE <= s.current <= s.maxRate && SustainedHigh(s, rtts)
    requires 12_500 * |rtts| >= s.current - MIN_RATE
    ensures AfterRtts(s, rtts).current == MIN_RATE
    decreases |rtts|
  {
    if rtts == [] {
    } else {
      AdjustDirection(s.current, QueuingDelay(s, rtts[0]), s.maxRate);
      HighDelayConverges(UpdateRtt(s, rtts[0]), rtts[1..]);
    }
  }
}
