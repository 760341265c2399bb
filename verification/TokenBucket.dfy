/** The token bucket of `shaper.rs`, with each public method taken as one atomic step.

    Tokens are milli-bytes (bytes times 1000); times are microseconds since the bucket's epoch.
    `ShaperSteps` models the same code one load, store and compare-exchange at a time. */
module TokenBucket {

  const REFILL_GRANULARITY: nat := 100
  const MILLI: nat := 1000
  const MICRO: nat := 1_000_000

  /** The longest packet read from the tunnel's interface. */
  const TUN_MTU: nat := 1200

  datatype Bucket = Bucket(tokens: nat, rate: nat, burst: nat, last: nat)

  function Min(a: nat, b: nat): nat { if a <= b then a else b }

  function SaturatingSub(a: nat, b: nat): nat { if a <= b then 0 else a - b }

  function NewBucket(rate: nat, burst: nat): Bucket {
    Bucket(burst * MILLI, rate, burst, 0)
  }

  /** The tokens that `elapsed` microseconds earn at `rate` bytes per second, rounded down. */
  function Earned(rate: nat, elapsed: nat): nat { rate * elapsed / MILLI }

  function Refill(b: Bucket, now: nat): Bucket {
    var elapsed := SaturatingSub(now, b.last);
    if elapsed < REFILL_GRANULARITY then b
    else b.(last := now, tokens := Min(b.tokens + Earned(b.rate, elapsed), b.burst * MILLI))
  }

  /** `check`: the new bucket, and whether `bytes` may pass at time `now`. */
  function Check(b: Bucket, bytes: nat, now: nat): (Bucket, bool) {
    if b.rate == 0 then (b, true)
    else
      var filled := Refill(b, now);
      if filled.tokens < bytes * MILLI then (filled, false)
      else (filled.(tokens := filled.tokens - bytes * MILLI), true)
  }

  function BurstFor(rate: nat): nat { rate / 10 }

  function SetRate(b: Bucket, rate: nat): Bucket {
    Bucket(Min(b.tokens, BurstFor(rate) * MILLI), rate, BurstFor(rate), b.last)
  }

  /** The burst is a tenth of a second at the new rate, rounded down, and the bucket keeps what it
      holds up to that. */
  lemma SetRateMeans(b: Bucket, rate: nat)
    ensures var b' := SetRate(b, rate);
      && b'.rate == rate && 10 * b'.burst <= rate < 10 * (b'.burst + 1) && b'.last == b.last
      && b'.tokens <= b.tokens && b'.tokens <= 1000 * b'.burst
      && (b'.tokens == b.tokens || b'.tokens == 1000 * b'.burst)
  {
  }

  /** Every stored rate lies in (0, R], every stored burst is at most B, and the bucket never
      holds more than one burst. */
  predicate Within(b: Bucket, R: nat, B: nat) {
    0 < b.rate <= R && b.burst <= B && b.tokens <= b.burst * MILLI
  }

  /** The bucket as the source holds it: four cells updated in place. */
  class TokenBucket {
    var tokens: nat
    var rate: nat
    var burst: nat
    var lastRefill: nat

    ghost function State(): Bucket
      reads this
    {
      Bucket(tokens, rate, burst, lastRefill)
    }

    constructor (rate: nat, burst: nat)
      ensures State() == NewBucket(rate, burst)
    {
      this.tokens := burst * MILLI;
      this.rate := rate;
      this.burst := burst;
      this.lastRefill := 0;
    }

    method RefillTokens(now: nat)
      modifies this
      ensures State() == Refill(old(State()), now)
    {
      var elapsed := SaturatingSub(now, lastRefill);
      if elapsed < REFILL_GRANULARITY {
        return;
      }
      lastRefill := now;
      var add := rate * elapsed / MILLI;
      var max := burst * MILLI;
      var topped := Min(tokens + add, max);
      if topped != tokens {
        tokens := topped;
      }
    }

    method TryConsume(bytes: nat, now: nat) returns (allowed: bool)
      modifies this
      ensures (State(), allowed) == Check(old(State()), bytes, now)
    {
      if rate == 0 {
        return true;
      }
      RefillTokens(now);
      var cost := bytes * MILLI;
      if tokens < cost {
        return false;
      }
      tokens := tokens - cost;
      return true;
    }

    method ChangeRate(newRate: nat)
      modifies this
      ensures State() == SetRate(old(State()), newRate)
    {
      var newBurst := if newRate > 0 then newRate / 10 else 0;
      rate := newRate;
      burst := newBurst;
      var max := newBurst * MILLI;
      if tokens > max {
        tokens := max;
      }
    }
  }
}
