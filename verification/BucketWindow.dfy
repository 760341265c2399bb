/** What the token bucket promises over whole runs of `check` and `set_rate`, both ways:
    never more than the budget of any time window, and no rejection while budget is left. */
module BucketWindow {
  import opened Arithmetic
  import opened TokenBucket

  datatype Op = CheckOp(bytes: nat, now: nat) | SetRateOp(rate: nat)

  function Step(b: Bucket, op: Op): Bucket {
    match op
    case CheckOp(bytes, now) => Check(b, bytes, now).0
    case SetRateOp(rate) => SetRate(b, rate)
  }

  function Grant(b: Bucket, op: Op): nat {
    if op.CheckOp? && Check(b, op.bytes, op.now).1 then op.bytes else 0
  }

  /** The bucket after the first `n` operations of a run. */
  function StateAt(b: Bucket, ops: seq<Op>, n: nat): Bucket
    requires n <= |ops|
  {
    if n == 0 then b else Step(StateAt(b, ops, n - 1), ops[n - 1])
  }

  /** The bytes granted by the operations i, ..., j-1 of a run. */
  function GrantedIn(b: Bucket, ops: seq<Op>, i: nat, j: nat): nat
    requires i <= j <= |ops|
    decreases j
  {
    if i == j then 0
    else GrantedIn(b, ops, i, j - 1) + Grant(StateAt(b, ops, j - 1), ops[j - 1])
  }

  /** Operations i, ..., j-1 read a clock between `lo` and `hi` and set rates in (0, R] whose
      bursts are at most B. */
  predicate OpsWithin(ops: seq<Op>, i: nat, j: nat, lo: nat, hi: nat, R: nat, B: nat)
    requires i <= j <= |ops|
  {
    forall k :: i <= k < j ==>
      match ops[k]
      case CheckOp(_, now) => lo <= now <= hi
      case SetRateOp(rate) => 0 < rate <= R && BurstFor(rate) <= B
  }

  lemma EarnedBound(rate: nat, elapsed: nat, R: nat)
    requires rate <= R
    ensures MILLI * Earned(rate, elapsed) <= R * elapsed
  {
    assert rate * elapsed <= R * elapsed;
  }

  lemma StepKeepsWithin(b: Bucket, op: Op, R: nat, B: nat)
    requires Within(b, R, B)
    requires op.SetRateOp? ==> 0 < op.rate <= R && BurstFor(op.rate) <= B
    ensures Within(Step(b, op), R, B)
  {
  }

  lemma {:induction false} RunKeepsWithin(b: Bucket, ops: seq<Op>, n: nat, lo: nat, hi: nat, R: nat, B: nat)
    requires n <= |ops| && Within(b, R, B) && b.last <= hi
    requires OpsWithin(ops, 0, n, lo, hi, R, B)
    ensures Within(StateAt(b, ops, n), R, B) && StateAt(b, ops, n).last <= hi
  {
    if n == 0 {
    } else {
      RunKeepsWithin(b, ops, n - 1, lo, hi, R, B);
      StepKeepsWithin(StateAt(b, ops, n - 1), ops[n - 1], R, B);
    }
  }

  // ----- Never more than the budget of a window -----

  /** A ledger: what is in the bucket plus what was granted is paid for by the credit a window
      starts with and by R bytes per second up to the last refill. */
  predicate Ledger(b: Bucket, granted: nat, credit: int, R: nat) {
    MILLI * b.tokens + MICRO * granted <= credit + R * b.last
  }

  /** One burst, and the time from x on. */
  function BurstFrom(x: int, R: nat, B: nat): int { MICRO * B - R * x }

  lemma FirstCheckOpensLedger(b: Bucket, bytes: nat, now: nat, x: int, R: nat, B: nat)
    requires Within(b, R, B) && x <= Check(b, bytes, now).0.last
    ensures Ledger(Check(b, bytes, now).0, Grant(b, CheckOp(bytes, now)), BurstFrom(x, R, B), R)
  {
    var b', g := Check(b, bytes, now).0, Grant(b, CheckOp(bytes, now));
    assert b'.tokens + MILLI * g <= b.burst * MILLI;
    MulMonotone(R, x, b'.last);
  }

  lemma CheckKeepsLedger(b: Bucket, bytes: nat, now: nat, granted: nat, credit: int, R: nat, B: nat)
    requires Within(b, R, B) && Ledger(b, granted, credit, R)
    ensures Ledger(Check(b, bytes, now).0, granted + Grant(b, CheckOp(bytes, now)), credit, R)
  {
    var elapsed := SaturatingSub(now, b.last);
    EarnedBound(b.rate, elapsed, R);
    assert R * b.last + R * elapsed == R * (b.last + elapsed);
  }

  lemma StepKeepsLedger(b: Bucket, op: Op, granted: nat, credit: int, R: nat, B: nat)
    requires Within(b, R, B) && Ledger(b, granted, credit, R)
    ensures Ledger(Step(b, op), granted + Grant(b, op), credit, R)
  {
    match op
    case SetRateOp(_) =>
    case CheckOp(bytes, now) => CheckKeepsLedger(b, bytes, now, granted, credit, R, B);
  }

  /** Operations 0, ..., i-1 of a run come before the window [t0, t1] and i, ..., j-1 lie in it. */
  predicate Window(b: Bucket, ops: seq<Op>, i: nat, j: nat, t0: nat, t1: nat, R: nat, B: nat) {
    && i <= j <= |ops| && Within(b, R, B) && b.last <= t0 <= t1
    && OpsWithin(ops, 0, i, 0, t0, R, B) && OpsWithin(ops, i, j, t0, t1, R, B)
  }

  /** The first check of a window refills no earlier than this. */
  function FirstRefill(start: Bucket, t0: nat): int {
    if t0 - start.last >= REFILL_GRANULARITY then t0 else t0 - REFILL_GRANULARITY
  }

  /** Either no check has run yet in the window, so nothing was granted, or its ledger is open. */
  lemma {:induction false} WindowLedger(b: Bucket, ops: seq<Op>, i: nat, j: nat, t0: nat, t1: nat, R: nat, B: nat)
    requires Window(b, ops, i, j, t0, t1, R, B)
    ensures var start, end, granted := StateAt(b, ops, i), StateAt(b, ops, j), GrantedIn(b, ops, i, j);
      && Within(start, R, B) && Within(end, R, B)
      && start.last <= t0 && end.last <= t1
      && (end.last == start.last || start.last + REFILL_GRANULARITY <= end.last)
      && ((granted == 0 && end.last == start.last)
          || Ledger(end, granted, BurstFrom(FirstRefill(start, t0), R, B), R))
    decreases j
  {
    if i == j {
      RunKeepsWithin(b, ops, i, 0, t0, R, B);
    } else {
      WindowLedger(b, ops, i, j - 1, t0, t1, R, B);
      var before, op, granted := StateAt(b, ops, j - 1), ops[j - 1], GrantedIn(b, ops, i, j - 1);
      var x := FirstRefill(StateAt(b, ops, i), t0);
      StepKeepsWithin(before, op, R, B);
      if Ledger(before, granted, BurstFrom(x, R, B), R) {
        StepKeepsLedger(before, op, granted, BurstFrom(x, R, B), R, B);
      } else if op.CheckOp? {
        FirstCheckOpensLedger(before, op.bytes, op.now, x, R, B);
      }
    }
  }

  /** What the bucket holds when the window opens is credit too. */
  lemma {:induction false} StartLedger(b: Bucket, ops: seq<Op>, i: nat, j: nat, t0: nat, t1: nat, R: nat, B: nat)
    requires Window(b, ops, i, j, t0, t1, R, B)
    ensures var start := StateAt(b, ops, i);
      Ledger(StateAt(b, ops, j), GrantedIn(b, ops, i, j), MILLI * start.tokens - R * start.last, R)
    decreases j
  {
    if i == j {
    } else {
      StartLedger(b, ops, i, j - 1, t0, t1, R, B);
      WindowLedger(b, ops, i, j - 1, t0, t1, R, B);
      var start := StateAt(b, ops, i);
      StepKeepsLedger(StateAt(b, ops, j - 1), ops[j - 1], GrantedIn(b, ops, i, j - 1),
                      MILLI * start.tokens - R * start.last, R, B);
    }
  }

  lemma LedgerBounds(b: Bucket, granted: nat, x: int, t1: nat, R: nat, B: nat)
    requires Ledger(b, granted, BurstFrom(x, R, B), R) && b.last <= t1
    ensures MICRO * granted <= MICRO * B + R * (t1 - x)
  {
    MulMonotone(R, b.last, t1);
    assert R * t1 - R * x == R * (t1 - x);
  }

  lemma BoundFromLedger(b: Bucket, granted: nat, x: int, t0: nat, t1: nat, R: nat, B: nat)
    requires granted == 0 || Ledger(b, granted, BurstFrom(x, R, B), R)
    requires b.last <= t1 && t0 - REFILL_GRANULARITY <= x && t0 <= t1
    ensures MICRO * granted <= MICRO * B + R * (t1 - t0 + REFILL_GRANULARITY)
  {
    if granted == 0 {
      MulMonotone(R, 0, t1 - t0 + REFILL_GRANULARITY);
    } else {
      LedgerBounds(b, granted, x, t1, R, B);
      MulMonotone(R, t1 - x, t1 - t0 + REFILL_GRANULARITY);
    }
  }

  /** Every window of every run: with rates in (0, R] and bursts up to B, whatever the idle
      periods and rate changes, the bytes granted between t0 and t1 are at most one burst plus
      R bytes per second over the window lengthened by the 100 microseconds of a skipped refill. */
  lemma WindowBound(b: Bucket, ops: seq<Op>, i: nat, j: nat, t0: nat, t1: nat, R: nat, B: nat)
    requires Window(b, ops, i, j, t0, t1, R, B)
    ensures 1_000_000 * GrantedIn(b, ops, i, j) <= 1_000_000 * B + R * (t1 - t0 + 100)
  {
    WindowLedger(b, ops, i, j, t0, t1, R, B);
    BoundFromLedger(StateAt(b, ops, j), GrantedIn(b, ops, i, j), FirstRefill(StateAt(b, ops, i), t0), t0, t1, R, B);
  }

  // ----- When the 100 microseconds are not needed -----

  /** What can be seen when a window [t0, t1] opens on the bucket `start`: it has been idle long
      enough for the first check to refill it, or the window is over before any check can, or what
      it holds and earns until t1 makes no more whole bytes than the burst and the window do. */
  predicate SlackFree(start: Bucket, t0: nat, t1: nat, R: nat, B: nat) {
    || t0 - start.last >= REFILL_GRANULARITY
    || t1 - start.last < REFILL_GRANULARITY
    || (MILLI * start.tokens + R * (t1 - start.last)) / MICRO <= B + R * (t1 - t0) / MICRO
  }

  lemma WholeBytes(granted: nat, have: int, B: nat, earned: nat)
    requires MICRO * granted <= have && have / MICRO <= B + earned / MICRO
    ensures MICRO * granted <= MICRO * B + earned
  {
  }

  lemma BoundFromStart(start: Bucket, end: Bucket, granted: nat, t1: nat, R: nat)
    requires Ledger(end, granted, MILLI * start.tokens - R * start.last, R) && end.last <= t1
    ensures MICRO * granted <= MILLI * start.tokens + R * (t1 - start.last)
  {
    MulMonotone(R, end.last, t1);
    assert R * t1 - R * start.last == R * (t1 - start.last);
  }

  /** Every window of every run that opens on such a bucket keeps the bound without the 100
      microseconds. */
  lemma SlackFreeBound(b: Bucket, ops: seq<Op>, i: nat, j: nat, t0: nat, t1: nat, R: nat, B: nat)
    requires Window(b, ops, i, j, t0, t1, R, B) && SlackFree(StateAt(b, ops, i), t0, t1, R, B)
    ensures MICRO * GrantedIn(b, ops, i, j) <= MICRO * B + R * (t1 - t0)
  {
    WindowLedger(b, ops, i, j, t0, t1, R, B);
    StartLedger(b, ops, i, j, t0, t1, R, B);
    BoundWithoutSlack(StateAt(b, ops, i), StateAt(b, ops, j), GrantedIn(b, ops, i, j), t0, t1, R, B);
  }

  lemma BoundWithoutSlack(start: Bucket, end: Bucket, granted: nat, t0: nat, t1: nat, R: nat, B: nat)
    requires Within(start, R, B) && SlackFree(start, t0, t1, R, B) && end.last <= t1 && t0 <= t1
    requires end.last == start.last || start.last + REFILL_GRANULARITY <= end.last
    requires Ledger(end, granted, MILLI * start.tokens - R * start.last, R)
    requires granted == 0 || Ledger(end, granted, BurstFrom(FirstRefill(start, t0), R, B), R)
    ensures MICRO * granted <= MICRO * B + R * (t1 - t0)
  {
    MulMonotone(R, 0, t1 - t0);
    if end.last == start.last {
      assert MICRO * granted <= MILLI * start.tokens;
    } else if granted > 0 {
      if t0 - start.last >= REFILL_GRANULARITY {
        LedgerBounds(end, granted, t0, t1, R, B);
      } else {
        BoundFromStart(start, end, granted, t1, R);
        WholeBytes(granted, MILLI * start.tokens + R * (t1 - start.last), B, R * (t1 - t0));
      }
    }
  }

  function End(b: Bucket, ops: seq<Op>): Bucket { StateAt(b, ops, |ops|) }

  function Total(b: Bucket, ops: seq<Op>): nat { GrantedIn(b, ops, 0, |ops|) }

  lemma {:induction false} PrefixRun(b: Bucket, ops: seq<Op>, op: Op, n: nat)
    requires n <= |ops|
    ensures StateAt(b, ops + [op], n) == StateAt(b, ops, n)
    ensures GrantedIn(b, ops + [op], 0, n) == GrantedIn(b, ops, 0, n)
  {
    if n == 0 {
    } else {
      PrefixRun(b, ops, op, n - 1);
    }
  }

  lemma OneMore(b: Bucket, ops: seq<Op>, op: Op)
    ensures End(b, ops + [op]) == Step(End(b, ops), op)
    ensures Total(b, ops + [op]) == Total(b, ops) + Grant(End(b, ops), op)
  {
    PrefixRun(b, ops, op, |ops|);
  }

  /** A run followed by checks of n bytes in all at time t, in packets no longer than the tunnel's
      interface allows. */
  function Drained(ops: seq<Op>, t: nat, n: nat): seq<Op>
    decreases n
  {
    if n <= TUN_MTU then ops + [CheckOp(n, t)] else Drained(ops + [CheckOp(TUN_MTU, t)], t, n - TUN_MTU)
  }

  /** Only checks of such packets, by a clock that ascends from t0 to t1. */
  predicate Packets(ops: seq<Op>, t0: nat, t1: nat) {
    && (forall i :: 0 <= i < |ops| ==> ops[i].CheckOp? && ops[i].bytes <= TUN_MTU && t0 <= ops[i].now <= t1)
    && (forall i, j :: 0 <= i < j < |ops| ==> ops[i].now <= ops[j].now)
  }

  lemma {:induction false} DrainedArePackets(ops: seq<Op>, t: nat, n: nat, t0: nat)
    requires Packets(ops, t0, t) && t0 <= t
    ensures Packets(Drained(ops, t, n), t0, t)
    decreases n
  {
    if n <= TUN_MTU {
    } else {
      DrainedArePackets(ops + [CheckOp(TUN_MTU, t)], t, n - TUN_MTU, t0);
    }
  }

  lemma {:induction false} DrainGrants(b: Bucket, ops: seq<Op>, t: nat, n: nat, full: Bucket)
    requires full == Refill(End(b, ops), t) && full.rate > 0 && n * MILLI <= full.tokens
    ensures End(b, Drained(ops, t, n)) == full.(tokens := full.tokens - n * MILLI)
    ensures Total(b, Drained(ops, t, n)) == Total(b, ops) + n
    decreases n
  {
    if n <= TUN_MTU {
      OneMore(b, ops, CheckOp(n, t));
    } else {
      OneMore(b, ops, CheckOp(TUN_MTU, t));
      DrainGrants(b, ops + [CheckOp(TUN_MTU, t)], t, n - TUN_MTU, full.(tokens := full.tokens - TUN_MTU * MILLI));
    }
  }

  /** The burst outlasts 2 ms at the bucket's rate. `set_rate` and `RateLimiter::new` make it a
      tenth of a second's worth, at 125000 bytes per second or more. */
  predicate Roomy(b: Bucket) { b.rate > 0 && MILLI + 2 * b.rate <= b.burst * MILLI }

  lemma EarnedInSteps(rate: nat, elapsed: nat)
    ensures Earned(rate, elapsed + 1000) == Earned(rate, elapsed) + rate
    ensures elapsed <= 1100 ==> Earned(rate, elapsed) <= 2 * rate
  {
    assert rate * (elapsed + 1000) == rate * elapsed + rate * 1000;
    if elapsed <= 1100 {
      MulMonotone(rate, elapsed, 1100);
    }
  }

  /** Every whole byte that the bucket held and earned until its refill at time t has been granted. */
  predicate Exhausted(b: Bucket, ops: seq<Op>, t: nat) {
    && b.last <= t
    && End(b, ops) == b.(tokens := End(b, ops).tokens, last := t) && End(b, ops).tokens < MILLI
    && MILLI * Total(b, ops) + End(b, ops).tokens == b.tokens + Earned(b.rate, t - b.last)
  }

  /** Less than 100 microseconds after the last refill: take out what there is. */
  lemma DrainHeld(b: Bucket, t0: nat) returns (ops: seq<Op>)
    requires b.rate > 0 && b.last <= t0 < b.last + REFILL_GRANULARITY
    ensures Packets(ops, t0, t0) && Exhausted(b, ops, b.last)
  {
    ops := Drained([], t0, b.tokens / MILLI);
    DrainedArePackets([], t0, b.tokens / MILLI, t0);
    DrainGrants(b, [], t0, b.tokens / MILLI, b);
  }

  /** At most 1100 microseconds later: take out what has been earned. */
  lemma DrainEarned(b: Bucket, ops: seq<Op>, t: nat, t0: nat, t1: nat) returns (ops': seq<Op>)
    requires Roomy(b) && Exhausted(b, ops, t) && Packets(ops, t0, t1) && t0 <= t1
    requires t + REFILL_GRANULARITY <= t1 <= t + 1100
    requires Earned(b.rate, t1 - b.last) == Earned(b.rate, t - b.last) + Earned(b.rate, t1 - t)
    ensures Packets(ops', t0, t1) && Exhausted(b, ops', t1)
  {
    var mid := End(b, ops);
    var have := mid.tokens + Earned(b.rate, t1 - t);
    EarnedInSteps(b.rate, t1 - t);
    ops' := Drained(ops, t1, have / MILLI);
    DrainedArePackets(ops, t1, have / MILLI, t0);
    DrainGrants(b, ops, t1, have / MILLI, Refill(mid, t1));
  }

  /** A window that opens less than 100 microseconds after the last refill and closes at least 100
      microseconds after it can carry everything the bucket holds and earns until it closes. */
  lemma {:induction false} Exhaust(b: Bucket, t0: nat, t1: nat) returns (ops: seq<Op>)
    requires Roomy(b) && b.last <= t0 < b.last + REFILL_GRANULARITY <= t1
    ensures Packets(ops, t0, t1) && Exhausted(b, ops, t1)
    decreases t1
  {
    if t1 < b.last + 1100 {
      var held := DrainHeld(b, t0);
      ops := DrainEarned(b, held, b.last, t0, t1);
    } else {
      var before := Exhaust(b, t0, t1 - 1000);
      EarnedInSteps(b.rate, t1 - 1000 - b.last);
      EarnedInSteps(b.rate, 0);
      ops := DrainEarned(b, before, t1 - 1000, t0, t1);
    }
  }

  lemma WholeBytesHeld(total: nat, left: nat, tokens: nat, earned: nat)
    requires left < MILLI && MILLI * total + left == tokens + earned / MILLI
    ensures total == (MILLI * tokens + earned) / MICRO
  {
    assert (MILLI * tokens + earned) / MILLI == tokens + earned / MILLI;
  }

  /** Any other window can be made to exceed the bound, by packets of ordinary size. */
  lemma OtherwiseExceeded(b: Bucket, t0: nat, t1: nat) returns (ops: seq<Op>)
    requires Roomy(b) && b.last <= t0 <= t1 && !SlackFree(b, t0, t1, b.rate, b.burst)
    ensures Packets(ops, t0, t1)
    ensures MICRO * Total(b, ops) > MICRO * b.burst + b.rate * (t1 - t0)
  {
    ops := Exhaust(b, t0, t1);
    WholeBytesHeld(Total(b, ops), End(b, ops).tokens, b.tokens, b.rate * (t1 - b.last));
  }

  /** Exactly when the 100 microseconds can be dropped: every run through the window [t0, t1] keeps
      the bound without them if and only if the bucket on which it opens is free of slack. */
  lemma SlackFreeIff(b: Bucket, t0: nat, t1: nat)
    requires Within(b, b.rate, b.burst) && Roomy(b) && b.last <= t0 <= t1
    ensures SlackFree(b, t0, t1, b.rate, b.burst) <==>
      forall ops: seq<Op> :: OpsWithin(ops, 0, |ops|, t0, t1, b.rate, b.burst) ==>
        MICRO * Total(b, ops) <= MICRO * b.burst + b.rate * (t1 - t0)
  {
    if SlackFree(b, t0, t1, b.rate, b.burst) {
      forall ops: seq<Op> | OpsWithin(ops, 0, |ops|, t0, t1, b.rate, b.burst)
        ensures MICRO * Total(b, ops) <= MICRO * b.burst + b.rate * (t1 - t0)
      {
        SlackFreeBound(b, ops, 0, |ops|, t0, t1, b.rate, b.burst);
      }
    } else {
      var ops := OtherwiseExceeded(b, t0, t1);
      assert OpsWithin(ops, 0, |ops|, t0, t1, b.rate, b.burst);
    }
  }

  /** So the 100 microseconds cannot be dropped altogether: at 10 Mbit/s a new bucket carries more
      than a burst and a microsecond's worth between 99 and 100 microseconds after its epoch. */
  lemma GranularityIsNeeded() returns (ops: seq<Op>)
    ensures Packets(ops, 99, 100)
    ensures MICRO * Total(NewBucket(1_250_000, 125_000), ops) > MICRO * 125_000 + 1_250_000 * (100 - 99)
  {
    ops := OtherwiseExceeded(NewBucket(1_250_000, 125_000), 99, 100);
  }

  // ----- The other direction: a rejection means the budget really is spent. -----

  /** Since the bucket was last full, at time `t`, it has earned what rates of at least `r` and
      bursts of at least `m` should, up to one milli-byte of rounding for each of `k` refills. */
  predicate Served(b: Bucket, granted: nat, t: int, k: nat, r: nat, m: nat) {
    MICRO * m + r * (b.last - t) <= MILLI * b.tokens + MICRO * granted + MILLI * k
  }

  /** The bucket's rate is at least `r`, its burst at least `m`, and it holds at most its burst. */
  predicate AtLeast(b: Bucket, r: nat, m: nat) {
    0 < r <= b.rate && m <= b.burst && b.tokens <= b.burst * MILLI
  }

  /** Every rate set is at least `r` and comes with a burst of at least `m`. */
  predicate OpsAtLeast(ops: seq<Op>, r: nat, m: nat) {
    forall op :: op in ops && op.SetRateOp? ==> r <= op.rate && m <= BurstFor(op.rate)
  }

  lemma EarnedAtLeast(rate: nat, elapsed: nat, r: nat)
    requires r <= rate
    ensures r * elapsed < MILLI * Earned(rate, elapsed) + MILLI
  {
    MulMonotone(elapsed, r, rate);
  }

  lemma CheckKeepsServed(b: Bucket, bytes: nat, now: nat, granted: nat, t: int, k: nat, r: nat, m: nat)
    requires AtLeast(b, r, m) && Served(b, granted, t, k, r, m)
    ensures var b' := Check(b, bytes, now).0; var g := Grant(b, CheckOp(bytes, now));
      && AtLeast(b', r, m)
      && (|| Served(b', granted + g, t, k + 1, r, m)
          || (Served(b', g, b'.last, 0, r, m) && Refill(b, now).tokens == b.burst * MILLI))
  {
    var elapsed := SaturatingSub(now, b.last);
    EarnedAtLeast(b.rate, elapsed, r);
    assert r * (b.last - t) + r * elapsed == r * (b.last + elapsed - t);
  }

  lemma SetRateKeepsServed(b: Bucket, rate: nat, granted: nat, t: int, k: nat, r: nat, m: nat)
    requires AtLeast(b, r, m) && r <= rate && m <= BurstFor(rate) && Served(b, granted, t, k, r, m)
    ensures var b' := SetRate(b, rate);
      && AtLeast(b', r, m)
      && (|| Served(b', granted, t, k + 1, r, m)
          || (Served(b', 0, b'.last, 0, r, m) && b'.tokens == b'.burst * MILLI))
  {
  }

  /** The bucket was full, by its refill at time t, at the start of a run (i is 0), or when the check
      number i of its first n operations was about to spend, or when the change of rate number i
      had lowered its burst to what it held. */
  predicate FullAt(b: Bucket, ops: seq<Op>, i: nat, t: int, n: nat)
    requires n <= |ops|
  {
    || (i == 0 && t == b.last && b.tokens == b.burst * MILLI)
    || (i < n
        && var full := match ops[i]
             case CheckOp(_, now) => Refill(StateAt(b, ops, i), now)
             case SetRateOp(_) => StateAt(b, ops, i + 1);
           t == full.last && full.tokens == full.burst * MILLI)
  }

  lemma StepKeepsServed(b: Bucket, op: Op, granted: nat, t: int, k: nat, r: nat, m: nat)
    requires AtLeast(b, r, m) && Served(b, granted, t, k, r, m)
    requires op.SetRateOp? ==> r <= op.rate && m <= BurstFor(op.rate)
    ensures var b' := Step(b, op);
      && AtLeast(b', r, m)
      && (|| Served(b', granted + Grant(b, op), t, k + 1, r, m)
          || (&& Served(b', Grant(b, op), b'.last, 0, r, m)
              && var full := if op.CheckOp? then Refill(b, op.now) else b';
                 full.last == b'.last && full.tokens == full.burst * MILLI))
  {
    match op
    case CheckOp(bytes, now) => CheckKeepsServed(b, bytes, now, granted, t, k, r, m);
    case SetRateOp(rate) => SetRateKeepsServed(b, rate, granted, t, k, r, m);
  }

  lemma {:induction false} ServedSinceFull(b: Bucket, ops: seq<Op>, n: nat, r: nat, m: nat)
      returns (i: nat, t: int, k: nat)
    requires n <= |ops| && OpsAtLeast(ops, r, m)
    requires AtLeast(b, r, m) && b.tokens == b.burst * MILLI
    ensures i <= n && k <= n - i && FullAt(b, ops, i, t, n)
    ensures AtLeast(StateAt(b, ops, n), r, m)
    ensures Served(StateAt(b, ops, n), GrantedIn(b, ops, i, n), t, k, r, m)
  {
    if n == 0 {
      i, t, k := 0, b.last, 0;
    } else {
      i, t, k := ServedSinceFull(b, ops, n - 1, r, m);
      StepKeepsServed(StateAt(b, ops, n - 1), ops[n - 1], GrantedIn(b, ops, i, n - 1), t, k, r, m);
      if Served(StateAt(b, ops, n), GrantedIn(b, ops, i, n), t, k + 1, r, m) {
        k := k + 1;
      } else {
        i, t, k := n - 1, StateAt(b, ops, n).last, 0;
        assert GrantedIn(b, ops, n - 1, n - 1) == 0;
      }
    }
  }

  /** A rejection is justified. In every run of checks and rate changes from a full bucket, with
      rates of at least r and bursts of at least m, if the last check is rejected then, since some
      moment t at which the bucket was full, the grants together with the rejected packet exceed m
      bytes plus r bytes per second over the time since t, up to the skipped 100 microseconds and
      one milli-byte of rounding per operation. At a fixed rate r and m are the rate and burst. */
  lemma RejectionIsJustified(b: Bucket, ops: seq<Op>, r: nat, m: nat) returns (i: nat, t: int)
    requires ops != [] && OpsAtLeast(ops, r, m)
    requires AtLeast(b, r, m) && b.tokens == b.burst * MILLI
    requires var n := |ops| - 1; ops[n].CheckOp? && !Check(StateAt(b, ops, n), ops[n].bytes, ops[n].now).1
    ensures i <= |ops| && FullAt(b, ops, i, t, |ops|)
    ensures var last := ops[|ops| - 1];
      MICRO * m + r * (last.now - t)
        < MICRO * (GrantedIn(b, ops, i, |ops|) + last.bytes) + r * REFILL_GRANULARITY + MILLI * (|ops| - i)
  {
    var k;
    i, t, k := ServedSinceFull(b, ops, |ops|, r, m);
    RejectedIsSpent(StateAt(b, ops, |ops| - 1), ops[|ops| - 1].bytes, ops[|ops| - 1].now,
                    GrantedIn(b, ops, i, |ops|), t, k, r, m);
  }

  lemma RejectedIsSpent(b: Bucket, bytes: nat, now: nat, granted: nat, t: int, k: nat, r: nat, m: nat)
    requires !Check(b, bytes, now).1 && Served(Check(b, bytes, now).0, granted, t, k, r, m)
    ensures MICRO * m + r * (now - t) < MICRO * (granted + bytes) + r * REFILL_GRANULARITY + MILLI * k
  {
    var end := Check(b, bytes, now).0;
    MulMonotone(r, now - t, end.last - t + REFILL_GRANULARITY);
    assert r * (end.last - t + REFILL_GRANULARITY) == r * (end.last - t) + r * REFILL_GRANULARITY;
  }
}
