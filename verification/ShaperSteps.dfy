/** The lock-free shaper, one atomic access per step.

    Any number of threads run `check`, `set_rate` and `update_rtt` on one shared shaper. Every
    load, store, fetch-add and compare-exchange of the source is a step of its own, every weak
    compare-exchange may fail spuriously, and the clock may advance between any two steps.
    Interleaving is sequentially consistent and the clock is monotone. Refill, cost and clamp wrap
    at 64 bits, as they do in a release build; the initial values and the controller's next rate,
    which are computed from the configured cap alone, do not wrap here, and `ShaperNeverOverflows`
    says when they do not in the source. */
module ShaperSteps {
  import opened Arithmetic
  import opened TokenBucket
  import opened AdaptiveShaper

  /** The atomics, the clock, and the history counters `offered` and `granted`. */
  datatype Shared = Shared(
    tokens: nat, rate: nat, burst: nat, last: nat,
    base: nat, current: nat, maxRate: nat,
    droppedBytes: nat, droppedPackets: nat,
    clock: nat,
    offered: nat, offeredPackets: nat, granted: nat, grantedPackets: nat)

  /** Where a thread is, with its locals. Each value names the access that comes next. */
  datatype Pc =
    | Idle
    // RateLimiter::check and TokenBucket::check
    | CheckRate(bytes: nat)
    | RefillClock(bytes: nat)
    | RefillLast(bytes: nat, now: nat)
    | RefillCas(bytes: nat, now: nat, last: nat)
    | RefillRate(bytes: nat, elapsed: nat)
    | RefillBurst(bytes: nat, elapsed: nat, rate: nat)
    | RefillTokens(bytes: nat, elapsed: nat, rate: nat, burst: nat)
    | RefillAdd(bytes: nat, elapsed: nat, rate: nat, burst: nat, seen: nat)
    | SpendLoad(bytes: nat)
    | SpendCas(bytes: nat, seen: nat)
    | CountBytes(bytes: nat)
    | CountPacket(bytes: nat)
    // set_rate
    | StoreRate(newRate: nat)
    | StoreBurst(newRate: nat)
    | ClampLoad(newRate: nat)
    | ClampCas(newRate: nat, seen: nat)
    // update_rtt
    | RttLoad(rtt: nat)
    | RttCas(rtt: nat, base: nat)
    | RttReload(rtt: nat)
    | RttRate(rtt: nat, base: nat)
    | RttStore(newRate: nat)

  function Granted(sh: Shared, bytes: nat): Shared {
    sh.(granted := sh.granted + bytes, grantedPackets := sh.grantedPackets + 1)
  }

  /** One access by a thread at `pc`; `spurious` makes a weak compare-exchange fail. */
  function StepPc(sh: Shared, pc: Pc, spurious: bool): (Shared, Pc) {
    match pc
    case Idle => (sh, Idle)
    case CheckRate(n) =>
      if sh.rate == 0 then (Granted(sh, n), Idle) else (sh, RefillClock(n))
    case RefillClock(n) => (sh, RefillLast(n, sh.clock))
    case RefillLast(n, now) =>
      if SaturatingSub(now, sh.last) < REFILL_GRANULARITY then (sh, SpendLoad(n))
      else (sh, RefillCas(n, now, sh.last))
    case RefillCas(n, now, last) =>
      if sh.last == last then (sh.(last := now), RefillRate(n, SaturatingSub(now, last)))
      else (sh, SpendLoad(n))
    case RefillRate(n, elapsed) => (sh, RefillBurst(n, elapsed, sh.rate))
    case RefillBurst(n, elapsed, rate) => (sh, RefillTokens(n, elapsed, rate, sh.burst))
    case RefillTokens(n, elapsed, rate, burst) => (sh, RefillAdd(n, elapsed, rate, burst, sh.tokens))
    case RefillAdd(n, elapsed, rate, burst, seen) =>
      var topped := Topped(elapsed, rate, burst, seen);
      if topped == seen then (sh, SpendLoad(n))
      else if sh.tokens == seen && !spurious then (sh.(tokens := topped), SpendLoad(n))
      else (sh, RefillAdd(n, elapsed, rate, burst, sh.tokens))
    case SpendLoad(n) => (sh, SpendCas(n, sh.tokens))
    case SpendCas(n, seen) =>
      var cost := Wrap(n * MILLI);
      if seen < cost then (sh, CountBytes(n))
      else if sh.tokens == seen && !spurious then (Granted(sh.(tokens := seen - cost), n), Idle)
      else (sh, SpendCas(n, sh.tokens))
    case CountBytes(n) => (sh.(droppedBytes := sh.droppedBytes + n), CountPacket(n))
    case CountPacket(n) => (sh.(droppedPackets := sh.droppedPackets + 1), Idle)
    case StoreRate(r) => (sh.(rate := r), StoreBurst(r))
    case StoreBurst(r) => (sh.(burst := BurstFor(r)), ClampLoad(r))
    case ClampLoad(r) => (sh, ClampCas(r, sh.tokens))
    case ClampCas(r, seen) =>
      var max := Wrap(BurstFor(r) * MILLI);
      if seen <= max then (sh, Idle)
      else if sh.tokens == seen && !spurious then (sh.(tokens := max), Idle)
      else (sh, ClampCas(r, sh.tokens))
    case RttLoad(rtt) => (sh, RttCas(rtt, sh.base))
    case RttCas(rtt, base) =>
      if base <= rtt then (sh, RttReload(rtt))
      else if sh.base == base && !spurious then (sh.(base := rtt), RttReload(rtt))
      else (sh, RttCas(rtt, sh.base))
    case RttReload(rtt) => if sh.base == U64_MAX then (sh, Idle) else (sh, RttRate(rtt, sh.base))
    case RttRate(rtt, base) =>
      var rate := Adjust(sh.current, SaturatingSub(rtt, base), sh.maxRate);
      if rate == sh.current then (sh, Idle) else (sh, RttStore(rate))
    case RttStore(r) => (sh.(current := r), StoreRate(r))
  }

  /** What `refill` tries to store over `seen`. */
  function Topped(elapsed: nat, rate: nat, burst: nat, seen: nat): nat {
    Min(Wrap(seen + Wrap(rate * elapsed) / MILLI), Wrap(burst * MILLI))
  }

  datatype State = State(sh: Shared, threads: seq<Pc>)

  datatype Action =
    | Tick(micros: nat)
    | CallCheck(thread: nat, bytes: nat)
    | CallSetRate(thread: nat, rate: nat)
    | CallUpdateRtt(thread: nat, rtt: nat)
    | Run(thread: nat, spurious: bool)

  function Offered(sh: Shared, bytes: nat): Shared {
    sh.(offered := sh.offered + bytes, offeredPackets := sh.offeredPackets + 1)
  }

  /** An action that is not enabled leaves the state as it is. */
  function Apply(s: State, a: Action): State {
    match a
    case Tick(d) => s.(sh := s.sh.(clock := s.sh.clock + d))
    case CallCheck(i, n) =>
      if i < |s.threads| && s.threads[i].Idle?
      then State(Offered(s.sh, n), s.threads[i := CheckRate(n)]) else s
    case CallSetRate(i, r) =>
      if i < |s.threads| && s.threads[i].Idle? then s.(threads := s.threads[i := StoreRate(r)]) else s
    case CallUpdateRtt(i, rtt) =>
      if i < |s.threads| && s.threads[i].Idle? && s.sh.maxRate != 0
      then s.(threads := s.threads[i := RttLoad(rtt)]) else s
    case Run(i, spurious) =>
      if i < |s.threads| then
        var (sh, pc) := StepPc(s.sh, s.threads[i], spurious);
        State(sh, s.threads[i := pc])
      else s
  }

  function Exec(s: State, actions: seq<Action>): State
    decreases |actions|
  {
    if actions == [] then s else Exec(Apply(s, actions[0]), actions[1..])
  }

  /** A bucket on its own: no controller, so `update_rtt` returns at once. */
  function InitBucket(rate: nat, burst: nat, n: nat): State {
    State(Shared(burst * MILLI, rate, burst, 0, U64_MAX, 0, 0, 0, 0, 0, 0, 0, 0, 0), seq(n, _ => Idle))
  }

  /** `AdaptiveShaper::new(mbps)` shared by n threads. */
  function InitShaper(mbps: nat, n: nat): State {
    var rate := RateOfMbps(mbps);
    State(Shared(BurstFor(rate) * MILLI, rate, BurstFor(rate), 0, U64_MAX, rate, rate, 0, 0, 0, 0, 0, 0, 0),
          seq(n, _ => Idle))
  }

  // ----- The credit invariant -----

  /** Microseconds of credit that a thread has taken from `last_refill` and not yet added. */
  function Owed(pc: Pc): nat {
    match pc
    case RefillRate(_, elapsed) => elapsed
    case RefillBurst(_, elapsed, _) => elapsed
    case RefillTokens(_, elapsed, _, _) => elapsed
    case RefillAdd(_, elapsed, _, _, _) => elapsed
    case _ => 0
  }

  /** A thread between its reading of the clock and its addition of tokens. */
  function MidRefill(pc: Pc): nat {
    if pc.RefillLast? || pc.RefillCas? || pc.RefillRate? || pc.RefillBurst? || pc.RefillTokens? || pc.RefillAdd?
    then 1 else 0
  }

  predicate GoodRate(r: nat, R: nat, B: nat) { 0 < r <= R && BurstFor(r) <= B }

  predicate GoodShared(sh: Shared, R: nat, B: nat) {
    && 0 < sh.rate <= R && sh.burst <= B && sh.tokens <= B * MILLI
    && sh.last <= sh.clock
    && (sh.maxRate > 0 ==> MIN_RATE <= sh.current <= sh.maxRate && GoodRate(sh.maxRate, R, B))
  }

  predicate GoodPc(sh: Shared, pc: Pc, R: nat, B: nat) {
    && (pc.CheckRate? || pc.RefillClock? || pc.SpendLoad? ==> pc.bytes * MILLI < U64)
    && match pc
       case RefillLast(n, now) => n * MILLI < U64 && now <= sh.clock
       case RefillCas(n, now, last) => n * MILLI < U64 && last + REFILL_GRANULARITY <= now <= sh.clock
       case RefillRate(n, e) => n * MILLI < U64 && e <= sh.clock
       case RefillBurst(n, e, r) => n * MILLI < U64 && e <= sh.clock && r <= R
       case RefillTokens(n, e, r, b) => n * MILLI < U64 && e <= sh.clock && r <= R && b <= B
       case RefillAdd(n, e, r, b, seen) =>
         n * MILLI < U64 && e <= sh.clock && r <= R && b <= B && seen <= B * MILLI
       case SpendCas(n, seen) => n * MILLI < U64 && seen <= B * MILLI
       case StoreRate(r) => GoodRate(r, R, B)
       case StoreBurst(r) => GoodRate(r, R, B)
       case ClampLoad(r) => GoodRate(r, R, B)
       case ClampCas(r, seen) => GoodRate(r, R, B) && seen <= B * MILLI
       case RttLoad(_) => sh.maxRate > 0
       case RttCas(_, _) => sh.maxRate > 0
       case RttReload(_) => sh.maxRate > 0
       case RttRate(_, _) => sh.maxRate > 0
       case RttStore(r) => sh.maxRate > 0 && MIN_RATE <= r <= sh.maxRate
       case _ => true
  }

  /** Tokens, grants and owed credit together are paid for by one burst and by the time up to the
      last refill. */
  predicate Paid(sh: Shared, owed: nat, R: nat, B: nat) {
    MILLI * sh.tokens + MICRO * sh.granted + R * owed <= MICRO * B + R * sh.last
  }

  ghost predicate Inv(s: State, R: nat, B: nat) {
    && GoodShared(s.sh, R, B)
    && (forall i :: 0 <= i < |s.threads| ==> GoodPc(s.sh, s.threads[i], R, B))
    && Paid(s.sh, Sum(s.threads, Owed), R, B)
  }

  /** What a caller may ask for: a packet whose cost in milli-bytes fits 64 bits, and rates in
      (0, R] whose bursts are at most B. */
  predicate GoodCall(a: Action, R: nat, B: nat) {
    && (a.CallCheck? ==> a.bytes * MILLI < U64)
    && (a.CallSetRate? ==> GoodRate(a.rate, R, B))
  }

  lemma ToppedIsPaid(elapsed: nat, rate: nat, burst: nat, seen: nat, R: nat, B: nat)
    requires rate <= R && burst <= B
    ensures MILLI * Topped(elapsed, rate, burst, seen) <= MILLI * seen + R * elapsed
    ensures Topped(elapsed, rate, burst, seen) <= B * MILLI
  {
    assert rate * elapsed <= R * elapsed;
  }

  predicate StaysGood(sh: Shared, pc: Pc, spurious: bool, R: nat, B: nat) {
    var (sh', pc') := StepPc(sh, pc, spurious);
    && GoodShared(sh', R, B) && GoodPc(sh', pc', R, B)
    && sh'.clock == sh.clock && sh'.maxRate == sh.maxRate
  }

  lemma RefillStaysGood(sh: Shared, pc: Pc, spurious: bool, R: nat, B: nat)
    requires GoodShared(sh, R, B) && GoodPc(sh, pc, R, B)
    requires MidRefill(pc) == 1
    ensures StaysGood(sh, pc, spurious, R, B)
  {
    if pc.RefillAdd? {
      ToppedIsPaid(pc.elapsed, pc.rate, pc.burst, pc.seen, R, B);
    }
  }

  lemma SpendStaysGood(sh: Shared, pc: Pc, spurious: bool, R: nat, B: nat)
    requires GoodShared(sh, R, B) && GoodPc(sh, pc, R, B)
    requires MidRefill(pc) == 0 && InFlightPackets(pc) == 1
    ensures StaysGood(sh, pc, spurious, R, B)
  {
  }

  lemma RateStaysGood(sh: Shared, pc: Pc, spurious: bool, R: nat, B: nat)
    requires GoodShared(sh, R, B) && GoodPc(sh, pc, R, B)
    requires pc.StoreRate? || pc.StoreBurst? || pc.ClampLoad? || pc.ClampCas?
    ensures StaysGood(sh, pc, spurious, R, B)
  {
  }

  lemma RttStaysGood(sh: Shared, pc: Pc, spurious: bool, R: nat, B: nat)
    requires GoodShared(sh, R, B) && GoodPc(sh, pc, R, B)
    requires pc.Idle? || pc.RttLoad? || pc.RttCas? || pc.RttReload? || pc.RttRate? || pc.RttStore?
    ensures StaysGood(sh, pc, spurious, R, B)
  {
    if pc.RttRate? {
      AdjustDirection(sh.current, SaturatingSub(pc.rtt, pc.base), sh.maxRate);
    }
  }

  lemma StepPcIsGood(sh: Shared, pc: Pc, spurious: bool, R: nat, B: nat)
    requires GoodShared(sh, R, B) && GoodPc(sh, pc, R, B)
    ensures StaysGood(sh, pc, spurious, R, B)
  {
    if MidRefill(pc) == 1 {
      RefillStaysGood(sh, pc, spurious, R, B);
    } else if InFlightPackets(pc) == 1 {
      SpendStaysGood(sh, pc, spurious, R, B);
    } else if pc.StoreRate? || pc.StoreBurst? || pc.ClampLoad? || pc.ClampCas? {
      RateStaysGood(sh, pc, spurious, R, B);
    } else {
      RttStaysGood(sh, pc, spurious, R, B);
    }
  }

  /** Every step but a won refill and its addition pays for its grants in tokens. */
  lemma QuietStep(sh: Shared, pc: Pc, spurious: bool)
    requires sh.rate > 0 && !(pc.RefillCas? && sh.last == pc.last)
    requires pc.SpendCas? ==> pc.bytes * MILLI < U64
    requires pc.RefillAdd? ==> !StepPc(sh, pc, spurious).1.SpendLoad?
    ensures var (sh', pc') := StepPc(sh, pc, spurious);
      && MILLI * sh'.tokens + MICRO * sh'.granted <= MILLI * sh.tokens + MICRO * sh.granted
      && sh'.last == sh.last && Owed(pc') == Owed(pc)
  {
  }

  lemma Distribute(R: nat, x: nat, y: nat)
    ensures R * (x + y) == R * x + R * y
  {
  }

  /** What tokens, grants and owed credit have taken beyond the refill clock. */
  function Credit(sh: Shared, owed: nat, R: nat): int {
    MILLI * sh.tokens + MICRO * sh.granted + R * owed - R * sh.last
  }

  lemma WinMakesNoCredit(sh: Shared, now: nat, others: nat, R: nat)
    requires sh.last <= now
    ensures Credit(sh.(last := now), others + (now - sh.last), R) == Credit(sh, others, R)
  {
    Distribute(R, others, now - sh.last);
    Distribute(R, sh.last, now - sh.last);
  }

  lemma AddMakesNoCredit(sh: Shared, topped: nat, elapsed: nat, others: nat, R: nat)
    requires MILLI * topped <= MILLI * sh.tokens + R * elapsed
    ensures Credit(sh.(tokens := topped), others, R) <= Credit(sh, others + elapsed, R)
  {
    Distribute(R, others, elapsed);
  }

  /** No step creates credit: what a step adds to tokens, grants and its own debt it takes from
      the refill clock. */
  lemma StepMakesNoCredit(sh: Shared, pc: Pc, spurious: bool, others: nat, R: nat, B: nat)
    requires GoodShared(sh, R, B) && GoodPc(sh, pc, R, B)
    ensures var (sh', pc') := StepPc(sh, pc, spurious);
      Credit(sh', others + Owed(pc'), R) <= Credit(sh, others + Owed(pc), R)
  {
    var (sh', pc') := StepPc(sh, pc, spurious);
    if pc.RefillCas? && sh.last == pc.last {
      WinMakesNoCredit(sh, pc.now, others, R);
    } else if pc.RefillAdd? && pc'.SpendLoad? {
      ToppedIsPaid(pc.elapsed, pc.rate, pc.burst, pc.seen, R, B);
      AddMakesNoCredit(sh, sh'.tokens, pc.elapsed, others, R);
    } else {
      QuietStep(sh, pc, spurious);
      QuietMakesNoCredit(sh, sh', others + Owed(pc), R);
    }
  }

  lemma QuietMakesNoCredit(sh: Shared, sh': Shared, owed: nat, R: nat)
    requires MILLI * sh'.tokens + MICRO * sh'.granted <= MILLI * sh.tokens + MICRO * sh.granted
    requires sh'.last == sh.last
    ensures Credit(sh', owed, R) <= Credit(sh, owed, R)
  {
  }

  lemma GoodPcMonotone(sh: Shared, sh': Shared, pc: Pc, R: nat, B: nat)
    requires GoodPc(sh, pc, R, B) && sh.clock <= sh'.clock && sh.maxRate == sh'.maxRate
    ensures GoodPc(sh', pc, R, B)
  {
  }

  /** The debt of all threads but one. */
  ghost function OthersOwe(s: State, i: nat): (others: nat)
    requires i < |s.threads|
    ensures others + Owed(s.threads[i]) == Sum(s.threads, Owed)
  {
    SumUpdate(s.threads, i, Idle, Owed);
    Sum(s.threads[i := Idle], Owed)
  }

  /** Replacing one thread keeps the invariant if the shared state and that thread are good and
      the ledger balances with the other threads' debt. */
  lemma ReplaceThread(s: State, i: nat, sh': Shared, pc': Pc, R: nat, B: nat)
    requires Inv(s, R, B) && i < |s.threads|
    requires s.sh.clock <= sh'.clock && s.sh.maxRate == sh'.maxRate
    requires GoodShared(sh', R, B) && GoodPc(sh', pc', R, B)
    requires Paid(sh', OthersOwe(s, i) + Owed(pc'), R, B)
    ensures Inv(State(sh', s.threads[i := pc']), R, B)
  {
    SumUpdate(s.threads, i, pc', Owed);
    var ts := s.threads[i := pc'];
    forall k | 0 <= k < |ts| ensures GoodPc(sh', ts[k], R, B) {
      if k != i {
        GoodPcMonotone(s.sh, sh', s.threads[k], R, B);
      }
    }
  }

  lemma RunKeepsInv(s: State, i: nat, spurious: bool, R: nat, B: nat)
    requires Inv(s, R, B) && i < |s.threads|
    ensures var (sh', pc') := StepPc(s.sh, s.threads[i], spurious);
      Inv(State(sh', s.threads[i := pc']), R, B) && sh'.maxRate == s.sh.maxRate
  {
    var (sh', pc') := StepPc(s.sh, s.threads[i], spurious);
    StepPcIsGood(s.sh, s.threads[i], spurious, R, B);
    StepMakesNoCredit(s.sh, s.threads[i], spurious, OthersOwe(s, i), R, B);
    ReplaceThread(s, i, sh', pc', R, B);
  }

  lemma ApplyKeepsInv(s: State, a: Action, R: nat, B: nat)
    requires Inv(s, R, B) && GoodCall(a, R, B)
    ensures Inv(Apply(s, a), R, B) && Apply(s, a).sh.maxRate == s.sh.maxRate
  {
    match a
    case Tick(_) =>
      forall k | 0 <= k < |s.threads| ensures GoodPc(Apply(s, a).sh, s.threads[k], R, B) {
        GoodPcMonotone(s.sh, Apply(s, a).sh, s.threads[k], R, B);
      }
    case Run(i, spurious) =>
      if i < |s.threads| {
        RunKeepsInv(s, i, spurious, R, B);
      }
    case _ =>
      var s' := Apply(s, a);
      if s' != s {
        ReplaceThread(s, a.thread, s'.sh, s'.threads[a.thread], R, B);
      }
  }

  lemma {:induction false} ExecKeepsInv(s: State, actions: seq<Action>, R: nat, B: nat)
    requires Inv(s, R, B) && forall a :: a in actions ==> GoodCall(a, R, B)
    ensures Inv(Exec(s, actions), R, B) && Exec(s, actions).sh.maxRate == s.sh.maxRate
    decreases |actions|
  {
    if actions == [] {
    } else {
      ApplyKeepsInv(s, actions[0], R, B);
      ExecKeepsInv(Apply(s, actions[0]), actions[1..], R, B);
    }
  }

  lemma InitialInv(s: State, R: nat, B: nat)
    requires GoodShared(s.sh, R, B) && forall t :: t in s.threads ==> t.Idle?
    requires MILLI * s.sh.tokens <= MICRO * B && s.sh.granted == 0 && s.sh.last == 0
    ensures Inv(s, R, B)
  {
    SumZero(s.threads, Owed);
    forall i | 0 <= i < |s.threads| ensures GoodPc(s.sh, s.threads[i], R, B) {
      assert s.threads[i] in s.threads;
    }
  }

  /** The bucket under any interleaving of any number of threads. With every stored rate in
      (0, R] and every stored burst at most B, the credit ledger balances in every reachable
      state, the bucket never holds more than B bytes, and all bytes ever granted are at most
      B plus R bytes per second since the epoch. */
  lemma BucketGrantBound(rate: nat, burst: nat, n: nat, actions: seq<Action>, R: nat, B: nat)
    requires 0 < rate <= R && burst <= B
    requires forall a :: a in actions ==> GoodCall(a, R, B)
    ensures var s := Exec(InitBucket(rate, burst, n), actions);
      && Paid(s.sh, Sum(s.threads, Owed), R, B)
      && s.sh.tokens <= B * MILLI
      && MICRO * s.sh.granted <= MICRO * B + R * s.sh.clock
  {
    var init := InitBucket(rate, burst, n);
    InitialInv(init, R, B);
    ExecKeepsInv(init, actions, R, B);
    GrantedByClock(Exec(init, actions), R, B);
  }

  lemma GrantedByClock(s: State, R: nat, B: nat)
    requires Inv(s, R, B)
    ensures MICRO * s.sh.granted <= MICRO * B + R * s.sh.clock
  {
    var owed := Sum(s.threads, Owed);
    assert 0 <= R * owed;
    assert R * s.sh.last <= R * s.sh.clock;
  }

  /** The server's shaper under any interleaving of packet checks and RTT updates, from any number
      of sessions and both directions. No condition on the controller's behaviour is needed: the
      rates that racing updates store stay in [1 Mbit/s, cap] by themselves, and the sum of all
      traffic admitted is at most a tenth of a second at the cap plus the cap over the elapsed
      time. */
  lemma ShaperGrantBound(mbps: nat, n: nat, actions: seq<Action>)
    requires mbps > 0
    requires forall a :: a in actions ==> !a.CallSetRate? && (a.CallCheck? ==> a.bytes * MILLI < U64)
    ensures var s, cap := Exec(InitShaper(mbps, n), actions), RateOfMbps(mbps);
      && 125_000 <= s.sh.current <= cap && 0 < s.sh.rate <= cap && 8 * cap == 1_000_000 * mbps
      && s.sh.tokens <= BurstFor(cap) * MILLI
      && 8 * s.sh.granted <= mbps * (s.sh.clock + 100_000)
      && Inv(s, cap, BurstFor(cap))
  {
    CapInMegabits(mbps);
    var init, cap := InitShaper(mbps, n), RateOfMbps(mbps);
    InitialInv(init, cap, BurstFor(cap));
    ExecKeepsInv(init, actions, cap, BurstFor(cap));
    var s := Exec(init, actions);
    GrantedByClock(s, cap, BurstFor(cap));
    InMegabits(mbps, s.sh.granted, s.sh.clock);
  }

  lemma InMegabits(mbps: nat, granted: nat, clock: nat)
    requires MICRO * granted <= MICRO * BurstFor(RateOfMbps(mbps)) + RateOfMbps(mbps) * clock
    ensures 8 * granted <= mbps * (clock + 100_000)
  {
    CapInMegabits(mbps);
    assert RateOfMbps(mbps) * clock == 125_000 * (mbps * clock);
    assert mbps * (clock + 100_000) == mbps * clock + 100_000 * mbps;
  }

  // ----- Windows of an interleaving -----

  lemma {:induction false} ExecMakesNoCredit(s: State, actions: seq<Action>, R: nat, B: nat)
    requires Inv(s, R, B) && forall a :: a in actions ==> GoodCall(a, R, B)
    ensures var e := Exec(s, actions);
      Credit(e.sh, Sum(e.threads, Owed), R) <= Credit(s.sh, Sum(s.threads, Owed), R)
    decreases |actions|
  {
    if actions == [] {
    } else {
      ApplyMakesNoCredit(s, actions[0], R, B);
      ApplyKeepsInv(s, actions[0], R, B);
      ExecMakesNoCredit(Apply(s, actions[0]), actions[1..], R, B);
    }
  }

  /** A call only starts its thread. */
  lemma CallIsQuiet(s: State, a: Action) returns (pc: Pc)
    requires !a.Tick? && !a.Run? && Apply(s, a) != s
    ensures a.thread < |s.threads| && s.threads[a.thread].Idle?
    ensures var s' := Apply(s, a);
      && s'.sh == s.sh.(offered := s'.sh.offered, offeredPackets := s'.sh.offeredPackets)
      && (pc.CheckRate? || pc.StoreRate? || pc.RttLoad?) && s'.threads == s.threads[a.thread := pc]
  {
    pc := Apply(s, a).threads[a.thread];
  }

  lemma ApplyMakesNoCredit(s: State, a: Action, R: nat, B: nat)
    requires Inv(s, R, B)
    ensures var s' := Apply(s, a);
      Credit(s'.sh, Sum(s'.threads, Owed), R) <= Credit(s.sh, Sum(s.threads, Owed), R)
  {
    if a.Run? {
      if a.thread < |s.threads| {
        RunMakesNoCredit(s, a.thread, a.spurious, R, B);
      }
    } else if !a.Tick? && Apply(s, a) != s {
      var pc := CallIsQuiet(s, a);
      SumUpdate(s.threads, a.thread, pc, Owed);
      QuietMakesNoCredit(s.sh, Apply(s, a).sh, Sum(s.threads, Owed), R);
    }
  }

  lemma RunMakesNoCredit(s: State, i: nat, spurious: bool, R: nat, B: nat)
    requires Inv(s, R, B) && i < |s.threads|
    ensures var (sh', pc') := StepPc(s.sh, s.threads[i], spurious);
      Credit(sh', Sum(s.threads[i := pc'], Owed), R) <= Credit(s.sh, Sum(s.threads, Owed), R)
  {
    SumUpdate(s.threads, i, StepPc(s.sh, s.threads[i], spurious).1, Owed);
    StepMakesNoCredit(s.sh, s.threads[i], spurious, OthersOwe(s, i), R, B);
  }

  /** From any reachable state on, in every interleaving: the bytes granted are at most one burst
      plus R bytes per second since the last refill and over the credit that threads still owe. */
  lemma GrantsSinceRefill(s: State, actions: seq<Action>, R: nat, B: nat)
    requires Inv(s, R, B) && forall a :: a in actions ==> GoodCall(a, R, B)
    ensures var e := Exec(s, actions);
      MICRO * (e.sh.granted - s.sh.granted)
        <= MICRO * B + R * (e.sh.clock - s.sh.last + Sum(s.threads, Owed))
  {
    var e := Exec(s, actions);
    ExecMakesNoCredit(s, actions, R, B);
    assert GoodShared(e.sh, R, B) by { ExecKeepsInv(s, actions, R, B); }
    CreditBounds(s.sh, Sum(s.threads, Owed), e.sh, Sum(e.threads, Owed), R, B);
  }

  lemma CreditBounds(sh: Shared, owed: nat, sh': Shared, owed': nat, R: nat, B: nat)
    requires Credit(sh', owed', R) <= Credit(sh, owed, R) && sh.tokens <= B * MILLI && sh'.last <= sh'.clock
    ensures MICRO * (sh'.granted - sh.granted) <= MICRO * B + R * (sh'.clock - sh.last + owed)
  {
    MulMonotone(R, 0, owed');
    MulMonotone(R, sh'.last, sh'.clock);
    assert R * (sh'.clock - sh.last + owed) == R * sh'.clock - R * sh.last + R * owed;
  }

  /** What a thread may still add to the bucket out of time before t0: at most one burst, however
      long the bucket was idle. A thread that has read the clock before t0 may yet win. */
  function Due(pc: Pc, t0: nat, R: nat, B: nat): nat {
    match pc
    case RefillLast(_, now) => if now < t0 then MICRO * B else 0
    case RefillCas(_, now, _) => if now < t0 then MICRO * B else 0
    case _ => Min(R * Owed(pc), MICRO * B)
  }

  ghost function DueAt(t0: nat, R: nat, B: nat): Pc -> nat { (pc: Pc) => Due(pc, t0, R, B) }

  /** The first refill of a window may bring what was earned before it, up to one burst. */
  function Straddle(sh: Shared, t0: nat, R: nat, B: nat): nat {
    Min(R * SaturatingSub(t0, sh.last), MICRO * B)
  }

  /** Credit in a window that opens at t0, with idle time before t0 worth one burst per refill. */
  function WindowCredit(sh: Shared, due: nat, t0: nat, R: nat, B: nat): int {
    MILLI * sh.tokens + MICRO * sh.granted + due + Straddle(sh, t0, R, B) - R * Max(sh.last, t0)
  }

  lemma ToppedIsDue(elapsed: nat, rate: nat, burst: nat, seen: nat, R: nat, B: nat)
    requires rate <= R && burst <= B
    ensures MILLI * Topped(elapsed, rate, burst, seen) <= MILLI * seen + Min(R * elapsed, MICRO * B)
  {
    ToppedIsPaid(elapsed, rate, burst, seen, R, B);
  }

  lemma WinIsDue(sh: Shared, n: nat, now: nat, t0: nat, due: nat, R: nat, B: nat)
    requires sh.last <= now
    ensures var won, elapsed := sh.(last := now), now - sh.last;
      WindowCredit(won, due + Min(R * elapsed, MICRO * B), t0, R, B)
        <= WindowCredit(sh, due + Due(RefillCas(n, now, sh.last), t0, R, B), t0, R, B)
  {
    if now < t0 {
      MulMonotone(R, t0 - now, t0 - sh.last);
    } else if sh.last < t0 {
      MulMonotone(R, t0, now);
      assert R * (now - sh.last) == R * (t0 - sh.last) + (R * now - R * t0);
    } else {
      assert R * (now - sh.last) == R * now - R * sh.last;
    }
  }

  lemma AddIsDue(sh: Shared, topped: nat, due: nat, others: nat, t0: nat, R: nat, B: nat)
    requires MILLI * topped <= MILLI * sh.tokens + due
    ensures WindowCredit(sh.(tokens := topped), others, t0, R, B) <= WindowCredit(sh, others + due, t0, R, B)
  {
  }

  lemma QuietIsDue(sh: Shared, sh': Shared, due: nat, due': nat, t0: nat, R: nat, B: nat)
    requires MILLI * sh'.tokens + MICRO * sh'.granted <= MILLI * sh.tokens + MICRO * sh.granted
    requires sh'.last == sh.last && due' <= due
    ensures WindowCredit(sh', due', t0, R, B) <= WindowCredit(sh, due, t0, R, B)
  {
  }

  lemma StepMakesNoWindowCredit(sh: Shared, pc: Pc, spurious: bool, others: nat, t0: nat, R: nat, B: nat)
    requires GoodShared(sh, R, B) && GoodPc(sh, pc, R, B) && t0 <= sh.clock
    ensures var (sh', pc') := StepPc(sh, pc, spurious);
      WindowCredit(sh', others + Due(pc', t0, R, B), t0, R, B)
        <= WindowCredit(sh, others + Due(pc, t0, R, B), t0, R, B)
  {
    var (sh', pc') := StepPc(sh, pc, spurious);
    if pc.RefillCas? && sh.last == pc.last {
      WinIsDue(sh, pc.bytes, pc.now, t0, others, R, B);
    } else if pc.RefillAdd? && pc'.SpendLoad? {
      ToppedIsDue(pc.elapsed, pc.rate, pc.burst, pc.seen, R, B);
      AddIsDue(sh, sh'.tokens, Due(pc, t0, R, B), others, t0, R, B);
    } else {
      QuietWindowStep(sh, pc, spurious, others, t0, R, B);
    }
  }

  lemma QuietWindowStep(sh: Shared, pc: Pc, spurious: bool, others: nat, t0: nat, R: nat, B: nat)
    requires sh.rate > 0 && t0 <= sh.clock && !(pc.RefillCas? && sh.last == pc.last)
    requires pc.SpendCas? ==> pc.bytes * MILLI < U64
    requires pc.RefillAdd? ==> !StepPc(sh, pc, spurious).1.SpendLoad?
    ensures var (sh', pc') := StepPc(sh, pc, spurious);
      WindowCredit(sh', others + Due(pc', t0, R, B), t0, R, B)
        <= WindowCredit(sh, others + Due(pc, t0, R, B), t0, R, B)
  {
    var (sh', pc') := StepPc(sh, pc, spurious);
    QuietStep(sh, pc, spurious);
    DueNeverRises(sh, pc, spurious, t0, R, B);
    QuietIsDue(sh, sh', others + Due(pc, t0, R, B), others + Due(pc', t0, R, B), t0, R, B);
  }

  lemma DueNeverRises(sh: Shared, pc: Pc, spurious: bool, t0: nat, R: nat, B: nat)
    requires t0 <= sh.clock && !(pc.RefillCas? && sh.last == pc.last)
    ensures Due(StepPc(sh, pc, spurious).1, t0, R, B) <= Due(pc, t0, R, B)
  {
  }

  lemma ApplyMakesNoWindowCredit(s: State, a: Action, t0: nat, R: nat, B: nat)
    requires Inv(s, R, B) && t0 <= s.sh.clock
    ensures var s', due := Apply(s, a), DueAt(t0, R, B);
      && t0 <= s'.sh.clock
      && WindowCredit(s'.sh, Sum(s'.threads, due), t0, R, B) <= WindowCredit(s.sh, Sum(s.threads, due), t0, R, B)
  {
    var due := DueAt(t0, R, B);
    if a.Run? {
      if a.thread < |s.threads| {
        RunMakesNoWindowCredit(s, a.thread, a.spurious, t0, R, B);
      }
    } else if !a.Tick? && Apply(s, a) != s {
      var pc := CallIsQuiet(s, a);
      SumUpdate(s.threads, a.thread, pc, due);
      QuietIsDue(s.sh, Apply(s, a).sh, Sum(s.threads, due), Sum(s.threads[a.thread := pc], due), t0, R, B);
    }
  }

  lemma RunMakesNoWindowCredit(s: State, i: nat, spurious: bool, t0: nat, R: nat, B: nat)
    requires Inv(s, R, B) && t0 <= s.sh.clock && i < |s.threads|
    ensures var (sh', pc'), due := StepPc(s.sh, s.threads[i], spurious), DueAt(t0, R, B);
      && t0 <= sh'.clock
      && WindowCredit(sh', Sum(s.threads[i := pc'], due), t0, R, B) <= WindowCredit(s.sh, Sum(s.threads, due), t0, R, B)
  {
    var (sh', pc') := StepPc(s.sh, s.threads[i], spurious);
    var due := DueAt(t0, R, B);
    SumUpdate(s.threads, i, pc', due);
    SumUpdate(s.threads, i, Idle, due);
    StepPcIsGood(s.sh, s.threads[i], spurious, R, B);
    StepMakesNoWindowCredit(s.sh, s.threads[i], spurious, Sum(s.threads[i := Idle], due), t0, R, B);
  }

  lemma {:induction false} ExecMakesNoWindowCredit(s: State, actions: seq<Action>, t0: nat, R: nat, B: nat)
    requires Inv(s, R, B) && t0 <= s.sh.clock && forall a :: a in actions ==> GoodCall(a, R, B)
    ensures var e, due := Exec(s, actions), DueAt(t0, R, B);
      && t0 <= e.sh.clock
      && WindowCredit(e.sh, Sum(e.threads, due), t0, R, B) <= WindowCredit(s.sh, Sum(s.threads, due), t0, R, B)
    decreases |actions|
  {
    if actions == [] {
    } else {
      ApplyMakesNoWindowCredit(s, actions[0], t0, R, B);
      ApplyKeepsInv(s, actions[0], R, B);
      ExecMakesNoWindowCredit(Apply(s, actions[0]), actions[1..], t0, R, B);
    }
  }

  lemma AddBounds(M: nat, d: nat, k: nat, s: nat, r: nat)
    requires d <= M && (k == 0 ==> d == 0) && s <= M * r
    ensures d + s <= M * (k + r)
  {
    Distribute(M, k, r);
    if k > 0 {
      MulMonotone(M, 1, k);
    }
  }

  lemma {:induction false} DueIsBounded(ts: seq<Pc>, t0: nat, R: nat, B: nat)
    ensures Sum(ts, DueAt(t0, R, B)) <= MICRO * B * Sum(ts, MidRefill)
  {
    if ts == [] {
    } else {
      DueIsBounded(ts[1..], t0, R, B);
      AddBounds(MICRO * B, Due(ts[0], t0, R, B), MidRefill(ts[0]), Sum(ts[1..], DueAt(t0, R, B)),
                Sum(ts[1..], MidRefill));
    }
  }

  /** Every window of every interleaving, however long the bucket was idle before: the bytes
      granted are at most R bytes per second over the window, what the bucket holds when it opens,
      what the first refill brings from before, which is at most one burst, and one burst for each
      thread that is in the middle of a refill. */
  lemma WindowGrantBound(s: State, actions: seq<Action>, R: nat, B: nat)
    requires Inv(s, R, B) && forall a :: a in actions ==> GoodCall(a, R, B)
    ensures var e := Exec(s, actions);
      MICRO * (e.sh.granted - s.sh.granted)
        <= MILLI * s.sh.tokens + Straddle(s.sh, s.sh.clock, R, B)
           + MICRO * B * Sum(s.threads, MidRefill) + R * (e.sh.clock - s.sh.clock)
  {
    var e := Exec(s, actions);
    ExecMakesNoWindowCredit(s, actions, s.sh.clock, R, B);
    assert GoodShared(e.sh, R, B) by { ExecKeepsInv(s, actions, R, B); }
    WindowCloses(s, e, R, B);
  }

  lemma WindowCloses(s: State, e: State, R: nat, B: nat)
    requires var t0, due := s.sh.clock, DueAt(s.sh.clock, R, B);
      WindowCredit(e.sh, Sum(e.threads, due), t0, R, B) <= WindowCredit(s.sh, Sum(s.threads, due), t0, R, B)
    requires GoodShared(s.sh, R, B) && GoodShared(e.sh, R, B) && s.sh.clock <= e.sh.clock
    ensures MICRO * (e.sh.granted - s.sh.granted)
      <= MILLI * s.sh.tokens + Straddle(s.sh, s.sh.clock, R, B)
         + MICRO * B * Sum(s.threads, MidRefill) + R * (e.sh.clock - s.sh.clock)
  {
    var due := DueAt(s.sh.clock, R, B);
    DueIsBounded(s.threads, s.sh.clock, R, B);
    WindowCreditBounds(s.sh, Sum(s.threads, due), e.sh, Sum(e.threads, due), R, B);
  }

  lemma WindowCreditBounds(sh: Shared, due: nat, sh': Shared, due': nat, R: nat, B: nat)
    requires WindowCredit(sh', due', sh.clock, R, B) <= WindowCredit(sh, due, sh.clock, R, B)
    requires sh.last <= sh.clock <= sh'.clock && sh'.last <= sh'.clock
    ensures MICRO * (sh'.granted - sh.granted)
      <= MILLI * sh.tokens + Straddle(sh, sh.clock, R, B) + due + R * (sh'.clock - sh.clock)
  {
    MulMonotone(R, Max(sh'.last, sh.clock), sh'.clock);
    assert R * (sh'.clock - sh.clock) == R * sh'.clock - R * sh.clock;
  }

  /** So for the server's shaper, after any run and whatever follows it: any stretch of time adds
      at most the cap over its length, what the bucket holds, what it earned since its last refill
      up to one burst, and one burst for every refill under way. */
  lemma ShaperWindowBound(mbps: nat, n: nat, before: seq<Action>, during: seq<Action>)
    requires mbps > 0
    requires forall a :: a in before + during ==> !a.CallSetRate? && (a.CallCheck? ==> a.bytes * MILLI < U64)
    ensures var s := Exec(InitShaper(mbps, n), before); var e, cap := Exec(s, during), RateOfMbps(mbps);
      MICRO * (e.sh.granted - s.sh.granted)
        <= MILLI * s.sh.tokens + Straddle(s.sh, s.sh.clock, cap, BurstFor(cap))
           + MICRO * BurstFor(cap) * Sum(s.threads, MidRefill) + cap * (e.sh.clock - s.sh.clock)
  {
    assert forall a :: a in before || a in during ==> a in before + during;
    ShaperGrantBound(mbps, n, before);
    WindowGrantBound(Exec(InitShaper(mbps, n), before), during, RateOfMbps(mbps), BurstFor(RateOfMbps(mbps)));
  }

  // ----- No 64-bit overflow -----

  /** The results of the additions and multiplications in the code a thread at `pc` runs next. */
  function Intermediates(sh: Shared, pc: Pc): seq<nat> {
    match pc
    case RefillAdd(_, elapsed, rate, burst, seen) =>
      [rate * elapsed, burst * MILLI, seen + rate * elapsed / MILLI]
    case SpendCas(n, _) => [n * MILLI]
    case ClampCas(r, _) => [BurstFor(r) * MILLI]
    case RttRate(_, _) => [sh.current + sh.current / 20]
    case _ => []
  }

  lemma RefillFits(elapsed: nat, rate: nat, burst: nat, seen: nat, R: nat, B: nat, clock: nat)
    requires elapsed <= clock && rate <= R && burst <= B && seen <= B * MILLI
    requires B * MILLI + R * clock < U64
    ensures rate * elapsed < U64 && burst * MILLI < U64 && seen + rate * elapsed / MILLI < U64
  {
    MulMonotone(rate, elapsed, clock);
    MulMonotone(clock, rate, R);
  }

  /** As long as R times the uptime in microseconds and the largest bucket fit, nothing wraps. */
  lemma NothingOverflows(s: State, i: nat, R: nat, B: nat)
    requires Inv(s, R, B) && i < |s.threads|
    requires B * MILLI + R * s.sh.clock < U64 && R + R / 20 < U64
    ensures forall v :: v in Intermediates(s.sh, s.threads[i]) ==> v < U64
  {
    PcFits(s.sh, s.threads[i], R, B);
  }

  /** For the server's shaper: no addition or multiplication overflows, in its construction or in
      any later step, while one burst and the cap times the uptime fit 64 bits together. */
  lemma ShaperNeverOverflows(mbps: nat, n: nat, actions: seq<Action>, i: nat)
    requires mbps > 0
    requires forall a :: a in actions ==> !a.CallSetRate? && (a.CallCheck? ==> a.bytes * MILLI < U64)
    ensures var s, cap := Exec(InitShaper(mbps, n), actions), RateOfMbps(mbps);
      i < |s.threads| && BurstFor(cap) * MILLI + cap * s.sh.clock < U64 && cap + cap / 20 < U64 ==>
        && mbps * 1_000_000 < U64 && BurstFor(cap) * MILLI < U64
        && forall v :: v in Intermediates(s.sh, s.threads[i]) ==> v < U64
  {
    InitialFits(mbps);
    ShaperGrantBound(mbps, n, actions);
    var s, cap := Exec(InitShaper(mbps, n), actions), RateOfMbps(mbps);
    if i < |s.threads| && BurstFor(cap) * MILLI + cap * s.sh.clock < U64 && cap + cap / 20 < U64 {
      MulMonotone(cap, 0, s.sh.clock);
      NothingOverflows(s, i, cap, BurstFor(cap));
    }
  }

  lemma InitialFits(mbps: nat)
    requires mbps > 0
    ensures mbps * 1_000_000 <= BurstFor(RateOfMbps(mbps)) * MILLI
  {
    assert RateOfMbps(mbps) == mbps * 125_000;
  }

  lemma PcFits(sh: Shared, pc: Pc, R: nat, B: nat)
    requires GoodShared(sh, R, B) && GoodPc(sh, pc, R, B)
    requires B * MILLI + R * sh.clock < U64 && R + R / 20 < U64
    ensures forall v :: v in Intermediates(sh, pc) ==> v < U64
  {
    MulMonotone(R, 0, sh.clock);
    match pc {
      case RefillAdd(_, elapsed, rate, burst, seen) => RefillFits(elapsed, rate, burst, seen, R, B, sh.clock);
      case SpendCas(n, _) => assert n * MILLI < U64;
      case ClampCas(r, _) => assert BurstFor(r) * MILLI <= B * MILLI;
      case RttRate(_, _) => assert sh.current / 20 <= R / 20;
      case _ =>
    }
  }

  // ----- Conservation -----

  /** Bytes whose check has begun and is neither granted nor counted as dropped. */
  function InFlightBytes(pc: Pc): nat {
    if pc.CheckRate? || pc.RefillClock? || pc.RefillLast? || pc.RefillCas? || pc.RefillRate?
      || pc.RefillBurst? || pc.RefillTokens? || pc.RefillAdd? || pc.SpendLoad? || pc.SpendCas?
      || pc.CountBytes?
    then pc.bytes else 0
  }

  function InFlightPackets(pc: Pc): nat {
    if pc.CheckRate? || pc.RefillClock? || pc.RefillLast? || pc.RefillCas? || pc.RefillRate?
      || pc.RefillBurst? || pc.RefillTokens? || pc.RefillAdd? || pc.SpendLoad? || pc.SpendCas?
      || pc.CountBytes? || pc.CountPacket?
    then 1 else 0
  }

  ghost predicate Balanced(s: State) {
    && s.sh.offered == s.sh.granted + s.sh.droppedBytes + Sum(s.threads, InFlightBytes)
    && s.sh.offeredPackets == s.sh.grantedPackets + s.sh.droppedPackets + Sum(s.threads, InFlightPackets)
  }

  lemma StepPcBalances(sh: Shared, pc: Pc, spurious: bool)
    ensures var (sh', pc') := StepPc(sh, pc, spurious);
      && sh'.offered == sh.offered && sh'.offeredPackets == sh.offeredPackets
      && sh'.granted + sh'.droppedBytes + InFlightBytes(pc')
         == sh.granted + sh.droppedBytes + InFlightBytes(pc)
      && sh'.grantedPackets + sh'.droppedPackets + InFlightPackets(pc')
         == sh.grantedPackets + sh.droppedPackets + InFlightPackets(pc)
  {
  }

  lemma ApplyKeepsBalance(s: State, a: Action)
    requires Balanced(s)
    ensures Balanced(Apply(s, a))
  {
    if !a.Tick? && a.thread < |s.threads| {
      var i, pc := a.thread, s.threads[a.thread];
      var pc' := match a
        case CallCheck(_, n) => CheckRate(n)
        case CallSetRate(_, r) => StoreRate(r)
        case CallUpdateRtt(_, rtt) => RttLoad(rtt)
        case Run(_, spurious) => StepPc(s.sh, pc, spurious).1;
      SumUpdate(s.threads, i, pc', InFlightBytes);
      SumUpdate(s.threads, i, pc', InFlightPackets);
      if a.Run? {
        StepPcBalances(s.sh, pc, a.spurious);
      }
    }
  }

  /** Every packet offered is granted, counted as dropped, or still being checked, in every
      interleaving; the counters lose nothing to races. */
  lemma {:induction false} ExecKeepsBalance(s: State, actions: seq<Action>)
    requires Balanced(s)
    ensures Balanced(Exec(s, actions))
    decreases |actions|
  {
    if actions == [] {
    } else {
      ApplyKeepsBalance(s, actions[0]);
      ExecKeepsBalance(Apply(s, actions[0]), actions[1..]);
    }
  }

  lemma ShaperConserves(mbps: nat, n: nat, actions: seq<Action>)
    ensures var s := Exec(InitShaper(mbps, n), actions);
      && Balanced(s)
      && ((forall t :: t in s.threads ==> t.Idle?) ==>
          s.sh.offered == s.sh.granted + s.sh.droppedBytes
          && s.sh.offeredPackets == s.sh.grantedPackets + s.sh.droppedPackets)
  {
    var init := InitShaper(mbps, n);
    SumZero(init.threads, InFlightBytes);
    SumZero(init.threads, InFlightPackets);
    ExecKeepsBalance(init, actions);
    var s := Exec(init, actions);
    if forall t :: t in s.threads ==> t.Idle? {
      SumZero(s.threads, InFlightBytes);
      SumZero(s.threads, InFlightPackets);
    }
  }

  // ----- No cap -----

  /** Nothing but checks that are about to read a rate of 0. */
  predicate Unlimited(s: State) {
    && s.sh.rate == 0 && s.sh.maxRate == 0 && s.sh.droppedBytes == 0 && s.sh.droppedPackets == 0
    && forall t :: t in s.threads ==> t.Idle? || t.CheckRate?
  }

  lemma ApplyStaysUnlimited(s: State, a: Action)
    requires Unlimited(s) && !a.CallSetRate?
    ensures Unlimited(Apply(s, a))
  {
    if !a.Tick? && a.thread < |s.threads| {
      assert s.threads[a.thread] in s.threads;
    }
  }

  lemma {:induction false} ExecStaysUnlimited(s: State, actions: seq<Action>)
    requires Unlimited(s) && forall a :: a in actions ==> !a.CallSetRate?
    ensures Unlimited(Exec(s, actions))
    decreases |actions|
  {
    if actions == [] {
    } else {
      ApplyStaysUnlimited(s, actions[0]);
      ExecStaysUnlimited(Apply(s, actions[0]), actions[1..]);
    }
  }

  /** A cap of 0, the default, means no cap: in every interleaving nothing is dropped, and once all
      calls have returned everything offered has been granted. */
  lemma NoCapDropsNothing(n: nat, actions: seq<Action>)
    requires forall a :: a in actions ==> !a.CallSetRate?
    ensures var s := Exec(InitShaper(0, n), actions);
      && s.sh.droppedBytes == 0 && s.sh.droppedPackets == 0
      && ((forall t :: t in s.threads ==> t.Idle?) ==>
          s.sh.granted == s.sh.offered && s.sh.grantedPackets == s.sh.offeredPackets)
  {
    ExecStaysUnlimited(InitShaper(0, n), actions);
    ShaperConserves(0, n, actions);
  }

  // ----- A thread left alone finishes, and does what the atomic method does -----

  /** Steps left to a thread that runs alone: a compare-exchange fails at most once. */
  function Rank(sh: Shared, pc: Pc): nat {
    match pc
    case Idle => 0
    case CountPacket(_) => 1
    case CountBytes(_) => 2
    case SpendCas(_, seen) => if seen == sh.tokens then 3 else 4
    case SpendLoad(_) => 5
    case RefillAdd(_, _, _, _, seen) => if seen == sh.tokens then 6 else 7
    case RefillTokens(_, _, _, _) => 8
    case RefillBurst(_, _, _) => 9
    case RefillRate(_, _) => 10
    case RefillCas(_, _, _) => 11
    case RefillLast(_, _) => 12
    case RefillClock(_) => 13
    case CheckRate(_) => 14
    case ClampCas(_, seen) => if seen == sh.tokens then 1 else 2
    case ClampLoad(_) => 3
    case StoreBurst(_) => 4
    case StoreRate(_) => 5
    case RttStore(_) => 6
    case RttRate(_, _) => 7
    case RttReload(_) => 8
    case RttCas(_, base) => if base == sh.base then 9 else 10
    case RttLoad(_) => 11
  }

  /** The shared state once a thread at `pc` has run alone to the end of its call. That this
      recursion terminates says that the compare-exchange loops are obstruction-free. */
  function Solo(sh: Shared, pc: Pc): Shared
    decreases Rank(sh, pc)
  {
    if pc.Idle? then sh else var (sh', pc') := StepPc(sh, pc, false); Solo(sh', pc')
  }

  /** Running alone is one of the interleavings. */
  lemma {:induction false} SoloIsARun(s: State, i: nat) returns (actions: seq<Action>)
    requires i < |s.threads|
    ensures forall a :: a in actions ==> a == Run(i, false)
    ensures Exec(s, actions) == State(Solo(s.sh, s.threads[i]), s.threads[i := Idle])
    decreases Rank(s.sh, s.threads[i])
  {
    if s.threads[i].Idle? {
      actions := [];
      assert s.threads == s.threads[i := Idle];
    } else {
      var next := Apply(s, Run(i, false));
      var rest := SoloIsARun(next, i);
      actions := [Run(i, false)] + rest;
      assert actions[1..] == rest;
    }
  }

  function View(sh: Shared): Shaper {
    Shaper(Bucket(sh.tokens, sh.rate, sh.burst, sh.last), sh.base, sh.current, sh.maxRate,
           sh.droppedBytes, sh.droppedPackets)
  }

  lemma Hop(sh: Shared, pc: Pc, sh': Shared, pc': Pc)
    requires !pc.Idle? && StepPc(sh, pc, false) == (sh', pc')
    ensures Solo(sh, pc) == Solo(sh', pc')
  {
  }

  function Dropped(sh: Shared, n: nat): Shared {
    sh.(droppedBytes := sh.droppedBytes + n, droppedPackets := sh.droppedPackets + 1)
  }

  lemma SoloDrop(sh: Shared, n: nat)
    ensures Solo(sh, CountBytes(n)) == Dropped(sh, n)
  {
    var sh1 := sh.(droppedBytes := sh.droppedBytes + n);
    Hop(sh, CountBytes(n), sh1, CountPacket(n));
    Hop(sh1, CountPacket(n), Dropped(sh, n), Idle);
  }

  lemma SoloReject(sh: Shared, n: nat)
    requires n * MILLI < U64 && sh.tokens < n * MILLI
    ensures Solo(sh, SpendLoad(n)) == Dropped(sh, n)
  {
    Hop(sh, SpendLoad(n), sh, SpendCas(n, sh.tokens));
    Hop(sh, SpendCas(n, sh.tokens), sh, CountBytes(n));
    SoloDrop(sh, n);
  }

  lemma SoloGrant(sh: Shared, n: nat)
    requires n * MILLI < U64 && sh.tokens >= n * MILLI
    ensures Solo(sh, SpendLoad(n)) == Granted(sh.(tokens := sh.tokens - n * MILLI), n)
  {
    Hop(sh, SpendLoad(n), sh, SpendCas(n, sh.tokens));
    Hop(sh, SpendCas(n, sh.tokens), Granted(sh.(tokens := sh.tokens - n * MILLI), n), Idle);
  }

  lemma SoloLoads(sh: Shared, n: nat, elapsed: nat)
    ensures Solo(sh, RefillRate(n, elapsed)) == Solo(sh, RefillAdd(n, elapsed, sh.rate, sh.burst, sh.tokens))
  {
    Hop(sh, RefillRate(n, elapsed), sh, RefillBurst(n, elapsed, sh.rate));
    Hop(sh, RefillBurst(n, elapsed, sh.rate), sh, RefillTokens(n, elapsed, sh.rate, sh.burst));
    Hop(sh, RefillTokens(n, elapsed, sh.rate, sh.burst), sh,
        RefillAdd(n, elapsed, sh.rate, sh.burst, sh.tokens));
  }

  lemma SoloTopUp(sh: Shared, n: nat, elapsed: nat)
    ensures Solo(sh, RefillRate(n, elapsed))
         == Solo(sh.(tokens := Topped(elapsed, sh.rate, sh.burst, sh.tokens)), SpendLoad(n))
  {
    SoloLoads(sh, n, elapsed);
    SoloAdd(sh, n, elapsed, sh.rate, sh.burst);
  }

  lemma SoloAdd(sh: Shared, n: nat, elapsed: nat, rate: nat, burst: nat)
    ensures Solo(sh, RefillAdd(n, elapsed, rate, burst, sh.tokens))
         == Solo(sh.(tokens := Topped(elapsed, rate, burst, sh.tokens)), SpendLoad(n))
  {
    var topped := Topped(elapsed, rate, burst, sh.tokens);
    if topped == sh.tokens {
      assert sh.(tokens := topped) == sh;
    }
    Hop(sh, RefillAdd(n, elapsed, rate, burst, sh.tokens), sh.(tokens := topped), SpendLoad(n));
  }

  lemma ToppedWithoutWrap(elapsed: nat, rate: nat, burst: nat, seen: nat)
    requires rate * elapsed < U64 && seen + rate * elapsed < U64 && burst * MILLI < U64
    ensures Topped(elapsed, rate, burst, seen) == Min(seen + Earned(rate, elapsed), burst * MILLI)
  {
  }

  lemma SoloWinRefill(sh: Shared, n: nat)
    requires SaturatingSub(sh.clock, sh.last) >= REFILL_GRANULARITY
    ensures Solo(sh, RefillClock(n)) == Solo(sh.(last := sh.clock), RefillRate(n, sh.clock - sh.last))
  {
    Hop(sh, RefillClock(n), sh, RefillLast(n, sh.clock));
    Hop(sh, RefillLast(n, sh.clock), sh, RefillCas(n, sh.clock, sh.last));
    Hop(sh, RefillCas(n, sh.clock, sh.last), sh.(last := sh.clock), RefillRate(n, sh.clock - sh.last));
  }

  lemma SoloSkipRefill(sh: Shared, n: nat)
    requires SaturatingSub(sh.clock, sh.last) < REFILL_GRANULARITY
    ensures Solo(sh, RefillClock(n)) == Solo(sh, SpendLoad(n))
  {
    Hop(sh, RefillClock(n), sh, RefillLast(n, sh.clock));
    Hop(sh, RefillLast(n, sh.clock), sh, SpendLoad(n));
  }

  lemma RefillIsTopped(b: Bucket, now: nat)
    requires b.burst * MILLI < U64 && b.tokens + b.rate * now < U64
    requires SaturatingSub(now, b.last) >= REFILL_GRANULARITY
    ensures Refill(b, now) == b.(last := now, tokens := Topped(now - b.last, b.rate, b.burst, b.tokens))
  {
    assert b.rate * (now - b.last) <= b.rate * now;
    ToppedWithoutWrap(now - b.last, b.rate, b.burst, b.tokens);
  }

  lemma SoloRefill(sh: Shared, n: nat)
    requires sh.burst * MILLI < U64 && sh.tokens + sh.rate * sh.clock < U64
    ensures var b := Refill(View(sh).bucket, sh.clock);
      Solo(sh, RefillClock(n)) == Solo(sh.(tokens := b.tokens, last := b.last), SpendLoad(n))
  {
    var b := Refill(View(sh).bucket, sh.clock);
    if SaturatingSub(sh.clock, sh.last) < REFILL_GRANULARITY {
      assert sh == sh.(tokens := b.tokens, last := b.last);
      SoloSkipRefill(sh, n);
    } else {
      assert b.tokens == Topped(sh.clock - sh.last, sh.rate, sh.burst, sh.tokens) && b.last == sh.clock by {
        RefillIsTopped(View(sh).bucket, sh.clock);
      }
      SoloDoRefill(sh, n, b.tokens);
    }
  }

  lemma SoloDoRefill(sh: Shared, n: nat, topped: nat)
    requires SaturatingSub(sh.clock, sh.last) >= REFILL_GRANULARITY
    requires topped == Topped(sh.clock - sh.last, sh.rate, sh.burst, sh.tokens)
    ensures Solo(sh, RefillClock(n)) == Solo(sh.(tokens := topped, last := sh.clock), SpendLoad(n))
  {
    var won := sh.(last := sh.clock);
    SoloWinRefill(sh, n);
    SoloTopUp(won, n, sh.clock - sh.last);
    assert won.(tokens := topped) == sh.(tokens := topped, last := sh.clock);
  }

  /** Run alone, the lock-free `check` is the atomic one. */
  lemma SoloCheck(sh: Shared, n: nat)
    requires n * MILLI < U64 && sh.burst * MILLI < U64 && sh.tokens + sh.rate * sh.clock < U64
    ensures var (after, allowed) := Admit(View(sh), n, sh.clock);
      && View(Solo(sh, CheckRate(n))) == after
      && Solo(sh, CheckRate(n)).clock == sh.clock
      && Solo(sh, CheckRate(n)).granted == sh.granted + if allowed then n else 0
  {
    if sh.rate == 0 {
      Hop(sh, CheckRate(n), Granted(sh, n), Idle);
    } else {
      Hop(sh, CheckRate(n), sh, RefillClock(n));
      SoloRefill(sh, n);
      var b := Refill(View(sh).bucket, sh.clock);
      var filled := sh.(tokens := b.tokens, last := b.last);
      if b.tokens < n * MILLI {
        SoloReject(filled, n);
      } else {
        SoloGrant(filled, n);
      }
    }
  }

  lemma SoloSetRate(sh: Shared, r: nat)
    requires BurstFor(r) * MILLI < U64
    ensures var b := SetRate(View(sh).bucket, r);
      Solo(sh, StoreRate(r)) == sh.(tokens := b.tokens, rate := b.rate, burst := b.burst)
  {
    var sh1 := sh.(rate := r);
    var sh2 := sh1.(burst := BurstFor(r));
    Hop(sh, StoreRate(r), sh1, StoreBurst(r));
    Hop(sh1, StoreBurst(r), sh2, ClampLoad(r));
    Hop(sh2, ClampLoad(r), sh2, ClampCas(r, sh.tokens));
    Hop(sh2, ClampCas(r, sh.tokens), sh2.(tokens := Min(sh.tokens, BurstFor(r) * MILLI)), Idle);
  }

  /** Run alone, the lock-free `update_rtt` is the atomic one. */
  lemma SoloUpdateRtt(sh: Shared, rtt: nat)
    requires sh.maxRate > 0 && MIN_RATE <= sh.current <= sh.maxRate && sh.maxRate * MILLI < U64
    ensures View(Solo(sh, RttLoad(rtt))) == UpdateRtt(View(sh), rtt)
  {
    SoloBase(sh, rtt);
    var sh1 := sh.(base := Min(sh.base, rtt));
    if sh1.base == U64_MAX {
      Hop(sh1, RttReload(rtt), sh1, Idle);
    } else {
      SoloReload(sh1, rtt);
      SoloAdjust(sh1, rtt, sh1.base);
    }
  }

  lemma SoloBase(sh: Shared, rtt: nat)
    ensures Solo(sh, RttLoad(rtt)) == Solo(sh.(base := Min(sh.base, rtt)), RttReload(rtt))
  {
    if sh.base <= rtt {
      SoloKeepBase(sh, rtt);
    } else {
      SoloNewBase(sh, rtt, sh.(base := rtt));
    }
  }

  lemma SoloKeepBase(sh: Shared, rtt: nat)
    requires sh.base <= rtt
    ensures Solo(sh, RttLoad(rtt)) == Solo(sh, RttReload(rtt))
  {
    Hop(sh, RttLoad(rtt), sh, RttCas(rtt, sh.base));
    Hop(sh, RttCas(rtt, sh.base), sh, RttReload(rtt));
  }

  lemma SoloNewBase(sh: Shared, rtt: nat, sh': Shared)
    requires rtt < sh.base && sh' == sh.(base := rtt)
    ensures Solo(sh, RttLoad(rtt)) == Solo(sh', RttReload(rtt))
  {
    Hop(sh, RttLoad(rtt), sh, RttCas(rtt, sh.base));
    Hop(sh, RttCas(rtt, sh.base), sh', RttReload(rtt));
  }

  lemma SoloReload(sh: Shared, rtt: nat)
    requires sh.base != U64_MAX
    ensures Solo(sh, RttReload(rtt)) == Solo(sh, RttRate(rtt, sh.base))
  {
    Hop(sh, RttReload(rtt), sh, RttRate(rtt, sh.base));
  }

  lemma SoloAdjust(sh: Shared, rtt: nat, base: nat)
    requires MIN_RATE <= sh.current <= sh.maxRate && sh.maxRate * MILLI < U64
    ensures var rate := Adjust(sh.current, SaturatingSub(rtt, base), sh.maxRate);
      View(Solo(sh, RttRate(rtt, base))) ==
        if rate == sh.current then View(sh)
        else View(sh).(current := rate, bucket := SetRate(View(sh).bucket, rate))
  {
    var rate := Adjust(sh.current, SaturatingSub(rtt, base), sh.maxRate);
    AdjustDirection(sh.current, SaturatingSub(rtt, base), sh.maxRate);
    if rate == sh.current {
      Hop(sh, RttRate(rtt, base), sh, Idle);
    } else {
      Hop(sh, RttRate(rtt, base), sh, RttStore(rate));
      SoloStore(sh, rate);
    }
  }

  lemma SoloStore(sh: Shared, r: nat)
    requires BurstFor(r) * MILLI < U64
    ensures View(Solo(sh, RttStore(r))) == View(sh).(current := r, bucket := SetRate(View(sh).bucket, r))
  {
    var sh' := sh.(current := r);
    Hop(sh, RttStore(r), sh', StoreRate(r));
    SoloSetRate(sh', r);
  }
}
