/** What races do to the lock-free shaper: how far they loosen the window bound of the atomic one,
    exactly when they do, and that a lost race is always somebody's progress. */
module ShaperRaces {
  import opened Arithmetic
  import opened TokenBucket
  import opened BucketWindow
  import opened AdaptiveShaper
  import opened ShaperSteps

  lemma ExecCons(s: State, a: Action, rest: seq<Action>)
    ensures Exec(s, [a] + rest) == Exec(Apply(s, a), rest)
  {
    assert ([a] + rest)[1..] == rest;
  }

  lemma {:induction false} ExecConcat(s: State, a: seq<Action>, b: seq<Action>)
    ensures Exec(s, a + b) == Exec(Exec(s, a), b)
    decreases |a|
  {
    if a == [] {
      assert a + b == b;
    } else {
      assert (a + b)[1..] == a[1..] + b;
      ExecConcat(Apply(s, a[0]), a[1..], b);
    }
  }

  lemma ExecSnoc(s: State, front: seq<Action>, a: Action)
    ensures Exec(s, front + [a]) == Apply(Exec(s, front), a)
  {
    ExecConcat(s, front, [a]);
    assert [a] == [a] + [];
    ExecCons(Exec(s, front), a, []);
  }

  // ----- A race at one instant -----

  /** Checks of packets of ordinary size while the clock stands still. */
  predicate AtOnce(actions: seq<Action>) {
    forall a :: a in actions ==> a.Run? || (a.CallCheck? && a.bytes <= TUN_MTU)
  }

  /** `n` more bytes granted out of the bucket, and nothing else changed but the history. */
  predicate Spent(sh: Shared, sh': Shared, n: nat) {
    n * MILLI <= sh.tokens
    && sh' == sh.(tokens := sh.tokens - n * MILLI, granted := sh.granted + n, grantedPackets := sh'.grantedPackets,
                  offered := sh'.offered, offeredPackets := sh'.offeredPackets)
  }

  predicate CanSpend(s: State, i: nat, n: nat) {
    && i < |s.threads| && s.threads[i].Idle? && s.sh.rate > 0
    && SaturatingSub(s.sh.clock, s.sh.last) < REFILL_GRANULARITY && n * MILLI <= s.sh.tokens
  }

  lemma SoloSpend(sh: Shared, n: nat)
    requires sh.rate > 0 && SaturatingSub(sh.clock, sh.last) < REFILL_GRANULARITY
    requires n <= TUN_MTU && n * MILLI <= sh.tokens
    ensures Solo(sh, CheckRate(n)) == Granted(sh.(tokens := sh.tokens - n * MILLI), n)
  {
    Hop(sh, CheckRate(n), sh, RefillClock(n));
    SoloSkipRefill(sh, n);
    SoloGrant(sh, n);
  }

  lemma SpendOne(s: State, i: nat, n: nat) returns (actions: seq<Action>)
    requires CanSpend(s, i, n) && n <= TUN_MTU
    ensures AtOnce(actions)
    ensures Exec(s, actions).threads == s.threads && Spent(s.sh, Exec(s, actions).sh, n)
  {
    var called := Apply(s, CallCheck(i, n));
    var run := SoloIsARun(called, i);
    actions := [CallCheck(i, n)] + run;
    ExecCons(s, CallCheck(i, n), run);
    SoloSpend(called.sh, n);
    assert called.threads[i := Idle] == s.threads;
  }

  /** A thread can empty the bucket packet by packet. */
  lemma {:induction false} Spend(s: State, i: nat, n: nat) returns (actions: seq<Action>)
    requires CanSpend(s, i, n)
    ensures AtOnce(actions)
    ensures Exec(s, actions).threads == s.threads && Spent(s.sh, Exec(s, actions).sh, n)
    decreases n
  {
    if n <= TUN_MTU {
      actions := SpendOne(s, i, n);
    } else {
      var first := SpendOne(s, i, TUN_MTU);
      var rest := Spend(Exec(s, first), i, n - TUN_MTU);
      ExecConcat(s, first, rest);
      actions := first + rest;
    }
  }

  /** Thread i wins the refill clock and has not yet added what it won. */
  lemma WinRefill(s: State, i: nat, n: nat) returns (actions: seq<Action>)
    requires i < |s.threads| && s.threads[i].Idle? && s.sh.rate > 0 && n <= TUN_MTU
    requires SaturatingSub(s.sh.clock, s.sh.last) >= REFILL_GRANULARITY
    ensures AtOnce(actions)
    ensures Exec(s, actions)
      == State(Offered(s.sh, n).(last := s.sh.clock), s.threads[i := RefillRate(n, s.sh.clock - s.sh.last)])
  {
    var run, sh, ts := Run(i, false), Offered(s.sh, n), s.threads;
    var s1 := State(sh, ts[i := CheckRate(n)]);
    var s2 := State(sh, ts[i := RefillClock(n)]);
    var s3 := State(sh, ts[i := RefillLast(n, sh.clock)]);
    var s4 := State(sh, ts[i := RefillCas(n, sh.clock, sh.last)]);
    assert Apply(s1, run).threads == s2.threads && Apply(s2, run).threads == s3.threads;
    assert Apply(s3, run).threads == s4.threads;
    assert Apply(s4, run).threads == ts[i := RefillRate(n, sh.clock - sh.last)];
    actions := [CallCheck(i, n)] + ([run] + ([run] + ([run] + ([run] + []))));
    ExecCons(s, CallCheck(i, n), [run] + ([run] + ([run] + ([run] + []))));
    ExecCons(s1, run, [run] + ([run] + ([run] + [])));
    ExecCons(s2, run, [run] + ([run] + []));
    ExecCons(s3, run, [run] + []);
    ExecCons(s4, run, []);
  }

  /** Thread i then adds what it won and takes its packet out. */
  lemma FinishRefill(s: State, i: nat, n: nat, elapsed: nat, topped: nat) returns (actions: seq<Action>)
    requires i < |s.threads| && s.threads[i] == RefillRate(n, elapsed) && n <= TUN_MTU
    requires s.sh.tokens + s.sh.rate * elapsed < U64 && s.sh.burst * MILLI < U64
    requires topped == Min(s.sh.tokens + Earned(s.sh.rate, elapsed), s.sh.burst * MILLI) && n * MILLI <= topped
    ensures AtOnce(actions)
    ensures Exec(s, actions).threads == s.threads[i := Idle]
    ensures Spent(s.sh.(tokens := topped), Exec(s, actions).sh, n)
  {
    actions := SoloIsARun(s, i);
    SoloTopUp(s.sh, n, elapsed);
    ToppedWithoutWrap(elapsed, s.sh.rate, s.sh.burst, s.sh.tokens);
    SoloGrant(s.sh.(tokens := topped), n);
  }

  /** What one thread can add after another has emptied the bucket. */
  function SecondHelping(sh: Shared): nat {
    Min(sh.tokens % MILLI + Earned(sh.rate, SaturatingSub(sh.clock, sh.last)), sh.burst * MILLI)
  }

  predicate TwoFree(s: State, i: nat, j: nat) {
    i < |s.threads| && j < |s.threads| && i != j && s.threads[i].Idle? && s.threads[j].Idle?
  }

  /** Thread i wins the refill clock, thread j empties the bucket, thread i adds what it won, and
      thread j empties the bucket again: all while the clock stands still. */
  lemma Race(s: State, i: nat, j: nat) returns (actions: seq<Action>)
    requires TwoFree(s, i, j) && s.sh.rate > 0 && s.sh.clock - s.sh.last >= REFILL_GRANULARITY
    requires s.sh.tokens % MILLI + s.sh.rate * (s.sh.clock - s.sh.last) < U64 && s.sh.burst * MILLI < U64
    requires SecondHelping(s.sh) >= MILLI
    ensures AtOnce(actions)
    ensures var e := Exec(s, actions);
      && e.sh.clock == s.sh.clock
      && e.sh.granted == s.sh.granted + s.sh.tokens / MILLI + SecondHelping(s.sh) / MILLI
  {
    var held, more := s.sh.tokens / MILLI, SecondHelping(s.sh);
    var win := WinRefill(s, i, 1);
    var s1 := Exec(s, win);
    var first := Spend(s1, j, held);
    var s2 := Exec(s1, first);
    var fill := FinishRefill(s2, i, 1, s.sh.clock - s.sh.last, more);
    var s3 := Exec(s2, fill);
    var second := Spend(s3, j, more / MILLI - 1);
    ExecConcat(s, win, first + (fill + second));
    ExecConcat(s1, first, fill + second);
    ExecConcat(s2, fill, second);
    actions := win + (first + (fill + second));
  }

  // ----- Atomic runs are interleavings -----

  function BucketOf(sh: Shared): Bucket { View(sh).bucket }

  predicate Fits(sh: Shared, until: nat) {
    && sh.tokens <= sh.burst * MILLI && sh.clock <= until
    && sh.burst * MILLI + sh.rate * until < U64
  }

  /** Wait until `now` and check one packet. */
  lemma CheckIsARun(s: State, i: nat, bytes: nat, now: nat, until: nat) returns (actions: seq<Action>)
    requires i < |s.threads| && s.threads[i].Idle? && bytes <= TUN_MTU
    requires s.sh.clock <= now <= until && Fits(s.sh, until)
    ensures forall a :: a in actions ==> !a.CallSetRate? && (a.CallCheck? ==> a.bytes <= TUN_MTU)
    ensures var e, op := Exec(s, actions), CheckOp(bytes, now);
      && e.threads == s.threads && e.sh.clock == now
      && BucketOf(e.sh) == Step(BucketOf(s.sh), op)
      && e.sh.granted == s.sh.granted + Grant(BucketOf(s.sh), op)
  {
    var later := Apply(s, Tick(now - s.sh.clock));
    var called := Apply(later, CallCheck(i, bytes));
    var run := SoloIsARun(called, i);
    actions := [Tick(now - s.sh.clock)] + ([CallCheck(i, bytes)] + run);
    ExecCons(s, Tick(now - s.sh.clock), [CallCheck(i, bytes)] + run);
    ExecCons(later, CallCheck(i, bytes), run);
    MulMonotone(s.sh.rate, now, until);
    SoloCheck(called.sh, bytes);
    assert called.threads[i := Idle] == s.threads;
  }

  /** A change of rate, or a round trip, handed to an idle thread that is left alone is the atomic one. */
  lemma CallsAreRuns(s: State, i: nat, rate: nat, rtt: nat) returns (setting: seq<Action>, updating: seq<Action>)
    requires i < |s.threads| && s.threads[i].Idle? && BurstFor(rate) * MILLI < U64
    requires 125_000 <= s.sh.current <= s.sh.maxRate && s.sh.maxRate * MILLI < U64
    ensures var e := Exec(s, setting); e.threads == s.threads && BucketOf(e.sh) == SetRate(BucketOf(s.sh), rate)
    ensures var e := Exec(s, updating); e.threads == s.threads && View(e.sh) == UpdateRtt(View(s.sh), rtt)
  {
    var called := Apply(s, CallSetRate(i, rate));
    var run := SoloIsARun(called, i);
    setting := [CallSetRate(i, rate)] + run;
    ExecCons(s, CallSetRate(i, rate), run);
    SoloSetRate(s.sh, rate);
    assert called.threads[i := Idle] == s.threads;
    updating := UpdateIsARun(s, i, rtt);
  }

  lemma UpdateIsARun(s: State, i: nat, rtt: nat) returns (actions: seq<Action>)
    requires i < |s.threads| && s.threads[i].Idle?
    requires 125_000 <= s.sh.current <= s.sh.maxRate && s.sh.maxRate * MILLI < U64
    ensures var e := Exec(s, actions); e.threads == s.threads && View(e.sh) == UpdateRtt(View(s.sh), rtt)
  {
    var called := Apply(s, CallUpdateRtt(i, rtt));
    var run := SoloIsARun(called, i);
    actions := [CallUpdateRtt(i, rtt)] + run;
    ExecCons(s, CallUpdateRtt(i, rtt), run);
    SoloUpdateRtt(s.sh, rtt);
    assert called.threads[i := Idle] == s.threads;
  }

  lemma StepFits(b: Bucket, op: Op)
    requires op.CheckOp? && b.tokens <= b.burst * MILLI
    ensures var b' := Step(b, op); b'.tokens <= b'.burst * MILLI && b'.rate == b.rate && b'.burst == b.burst
  {
  }

  /** Every atomic run of checks by an ascending clock is one of the interleavings: whatever the
      atomic bucket can be made to grant, so can the lock-free one. */
  lemma {:induction false} AtomicIsARun(s: State, i: nat, ops: seq<Op>, until: nat) returns (actions: seq<Action>)
    requires i < |s.threads| && s.threads[i].Idle? && Packets(ops, s.sh.clock, until) && Fits(s.sh, until)
    ensures forall a :: a in actions ==> !a.CallSetRate? && (a.CallCheck? ==> a.bytes <= TUN_MTU)
    ensures var e := Exec(s, actions);
      && e.threads == s.threads
      && e.sh.clock == (if ops == [] then s.sh.clock else ops[|ops| - 1].now)
      && BucketOf(e.sh) == End(BucketOf(s.sh), ops) && Fits(e.sh, until)
      && e.sh.granted == s.sh.granted + Total(BucketOf(s.sh), ops)
    decreases |ops|
  {
    if ops == [] {
      actions := [];
    } else {
      var front, op := ops[..|ops| - 1], ops[|ops| - 1];
      assert ops == front + [op];
      var first := AtomicIsARun(s, i, front, until);
      var mid := Exec(s, first);
      var last := CheckIsARun(mid, i, op.bytes, op.now, until);
      ExecConcat(s, first, last);
      OneMore(BucketOf(s.sh), front, op);
      StepFits(BucketOf(mid.sh), op);
      actions := first + last;
    }
  }

  // ----- When one burst is the most -----

  /** What the bucket holds and what it has earned since its last refill, up to one burst, make no
      more whole bytes than one burst. */
  predicate OneBurst(sh: Shared) {
    (MILLI * sh.tokens + Straddle(sh, sh.clock, sh.rate, sh.burst)) / MICRO <= sh.burst
  }

  predicate GoodCalls(actions: seq<Action>, R: nat, B: nat) {
    forall a :: a in actions ==> GoodCall(a, R, B)
  }

  /** Between the two states not a whole byte was granted beyond one burst and the rate over the
      time between them. At one instant that is: at most one burst. */
  predicate WithinOneBurst(sh: Shared, sh': Shared) {
    MICRO * (sh'.granted - sh.granted) < MICRO * (sh.burst + 1) + sh.rate * (sh'.clock - sh.clock)
  }

  lemma OneBurstSuffices(s: State, actions: seq<Action>)
    requires Inv(s, s.sh.rate, s.sh.burst) && Sum(s.threads, MidRefill) == 0 && OneBurst(s.sh)
    requires GoodCalls(actions, s.sh.rate, s.sh.burst)
    ensures WithinOneBurst(s.sh, Exec(s, actions).sh)
  {
    WindowGrantBound(s, actions, s.sh.rate, s.sh.burst);
  }

  /** The race makes as many whole bytes as there are to be had at that instant. */
  lemma RaceIsEnough(sh: Shared)
    requires !OneBurst(sh) && sh.tokens <= sh.burst * MILLI
    ensures sh.tokens / MILLI + SecondHelping(sh) / MILLI > sh.burst && SecondHelping(sh) >= MILLI
  {
    var earned := sh.rate * SaturatingSub(sh.clock, sh.last);
    if SecondHelping(sh) == sh.burst * MILLI {
      assert sh.tokens >= MILLI;
    } else {
      WholeBytesHeld(sh.tokens / MILLI + SecondHelping(sh) / MILLI, SecondHelping(sh) % MILLI, sh.tokens, earned);
    }
  }

  lemma RaceExceeds(s: State, i: nat, j: nat) returns (actions: seq<Action>)
    requires TwoFree(s, i, j) && s.sh.rate > 0 && Fits(s.sh, s.sh.clock) && !OneBurst(s.sh)
    requires s.sh.clock - s.sh.last >= REFILL_GRANULARITY
    ensures AtOnce(actions) && !WithinOneBurst(s.sh, Exec(s, actions).sh)
  {
    RaceIsEnough(s.sh);
    assert s.sh.tokens % MILLI + s.sh.rate * (s.sh.clock - s.sh.last) < U64 by {
      MulMonotone(s.sh.rate, s.sh.clock - s.sh.last, s.sh.clock);
    }
    assert s.sh.burst * MILLI < U64 by { MulMonotone(s.sh.rate, 0, s.sh.clock); }
    actions := Race(s, i, j);
    MoreAtOnce(s.sh, Exec(s, actions).sh);
  }

  lemma MoreAtOnce(sh: Shared, sh': Shared)
    requires sh'.clock == sh.clock && sh'.granted - sh.granted > sh.burst
    ensures !WithinOneBurst(sh, sh')
  {
  }

  lemma SecondIsEnough(total: nat, left: nat, tokens: nat, earned: nat, rate: nat, burst: nat)
    requires (MILLI * tokens + earned) / MICRO > burst
    requires left < MILLI && MILLI * total + left == tokens + (earned + MICRO * rate) / MILLI
    ensures MICRO * total >= MICRO * (burst + 1) + MICRO * rate
  {
    WholeBytesHeld(total, left, tokens, earned + MICRO * rate);
    WholeSecond(MILLI * tokens + earned, rate);
  }

  lemma WholeSecond(x: nat, rate: nat)
    ensures (x + MICRO * rate) / MICRO == x / MICRO + rate
  {
  }

  /** Too soon after a refill for a race: then a second of traffic does it, as it does atomically. */
  lemma SecondExceeds(s: State, i: nat) returns (actions: seq<Action>)
    requires i < |s.threads| && s.threads[i].Idle? && Fits(s.sh, s.sh.clock + MICRO) && !OneBurst(s.sh)
    requires Roomy(BucketOf(s.sh)) && s.sh.last <= s.sh.clock < s.sh.last + REFILL_GRANULARITY
    ensures forall a :: a in actions ==> !a.CallSetRate? && (a.CallCheck? ==> a.bytes <= TUN_MTU)
    ensures !WithinOneBurst(s.sh, Exec(s, actions).sh)
  {
    var b, until := BucketOf(s.sh), s.sh.clock + MICRO;
    var ops := Exhaust(b, s.sh.clock, until);
    actions := AtomicIsARun(s, i, ops, until);
    ExhaustIsEnough(s.sh, Total(b, ops), End(b, ops).tokens);
    MoreInASecond(s.sh, Exec(s, actions).sh);
  }

  lemma ExhaustIsEnough(sh: Shared, total: nat, left: nat)
    requires !OneBurst(sh) && sh.last <= sh.clock && left < MILLI
    requires MILLI * total + left == sh.tokens + Earned(sh.rate, sh.clock + MICRO - sh.last)
    ensures MICRO * total >= MICRO * (sh.burst + 1) + MICRO * sh.rate
  {
    var earned := sh.rate * (sh.clock - sh.last);
    assert sh.rate * (sh.clock + MICRO - sh.last) == earned + MICRO * sh.rate;
    EarnedBeyond(sh, earned);
    SecondIsEnough(total, left, sh.tokens, earned, sh.rate, sh.burst);
  }

  lemma EarnedBeyond(sh: Shared, earned: nat)
    requires !OneBurst(sh) && sh.last <= sh.clock && earned == sh.rate * (sh.clock - sh.last)
    ensures (MILLI * sh.tokens + earned) / MICRO > sh.burst
  {
    assert Straddle(sh, sh.clock, sh.rate, sh.burst) <= earned;
  }

  lemma MoreInASecond(sh: Shared, sh': Shared)
    requires sh'.clock <= sh.clock + MICRO
    requires MICRO * (sh'.granted - sh.granted) >= MICRO * (sh.burst + 1) + MICRO * sh.rate
    ensures !WithinOneBurst(sh, sh')
  {
    MulMonotone(sh.rate, sh'.clock - sh.clock, MICRO);
  }

  /** Exactly when races do no harm. Take a reachable state with two threads free and no refill under
      way: in every interleaving from there, over every stretch of time, not a whole byte is granted
      beyond one burst and the rate, if and only if what the bucket holds and has earned since its
      last refill makes no more than one burst. */
  lemma OneBurstIff(s: State, i: nat, j: nat)
    requires Inv(s, s.sh.rate, s.sh.burst) && Sum(s.threads, MidRefill) == 0 && TwoFree(s, i, j)
    requires Roomy(BucketOf(s.sh)) && Fits(s.sh, s.sh.clock + MICRO)
    ensures OneBurst(s.sh) <==>
      forall actions :: GoodCalls(actions, s.sh.rate, s.sh.burst) ==> WithinOneBurst(s.sh, Exec(s, actions).sh)
  {
    if OneBurst(s.sh) {
      forall actions | GoodCalls(actions, s.sh.rate, s.sh.burst) ensures WithinOneBurst(s.sh, Exec(s, actions).sh) {
        OneBurstSuffices(s, actions);
      }
    } else {
      var actions;
      if s.sh.clock - s.sh.last >= REFILL_GRANULARITY {
        MulMonotone(s.sh.rate, s.sh.clock, s.sh.clock + MICRO);
        actions := RaceExceeds(s, i, j);
      } else {
        actions := SecondExceeds(s, i);
      }
      assert GoodCalls(actions, s.sh.rate, s.sh.burst);
    }
  }

  /** So for the server's shaper, in every reachable state in which it runs at its cap. */
  lemma ShaperOneBurstIff(mbps: nat, n: nat, before: seq<Action>, i: nat, j: nat)
    requires mbps > 0
    requires forall a :: a in before ==> !a.CallSetRate? && (a.CallCheck? ==> a.bytes * MILLI < U64)
    requires var s, cap := Exec(InitShaper(mbps, n), before), RateOfMbps(mbps);
      && s.sh.rate == cap && s.sh.burst == BurstFor(cap)
      && Sum(s.threads, MidRefill) == 0 && TwoFree(s, i, j) && Fits(s.sh, s.sh.clock + MICRO)
    ensures var s, cap := Exec(InitShaper(mbps, n), before), RateOfMbps(mbps);
      OneBurst(s.sh) <==>
        forall actions :: GoodCalls(actions, cap, BurstFor(cap)) ==> WithinOneBurst(s.sh, Exec(s, actions).sh)
  {
    ShaperGrantBound(mbps, n, before);
    OneBurstIff(Exec(InitShaper(mbps, n), before), i, j);
  }

  /** So races can double the burst: under every cap whose traffic in a tenth of a second fits 64
      bits as milli-bytes, once the server's shaper has been idle for a tenth of a second, two
      threads can be granted two bursts while the clock stands still. */
  lemma TwoBurstsAtOnce(mbps: nat) returns (actions: seq<Action>)
    requires mbps > 0 && RateOfMbps(mbps) * 100_000 < U64
    ensures AtOnce(actions)
    ensures var s := Exec(InitShaper(mbps, 2), [Tick(100_000)]); var e := Exec(s, actions);
      && s.threads == [Idle, Idle] && s.sh.clock == e.sh.clock && !OneBurst(s.sh)
      && e.sh.granted - s.sh.granted == 2 * BurstFor(RateOfMbps(mbps))
  {
    var s := Exec(InitShaper(mbps, 2), [Tick(100_000)]);
    IdleShaper(mbps);
    IdleTenth(s.sh);
    actions := Race(s, 0, 1);
  }

  lemma IdleShaper(mbps: nat)
    ensures var s, rate := Exec(InitShaper(mbps, 2), [Tick(100_000)]), RateOfMbps(mbps);
      && s.threads == [Idle, Idle] && s.sh.clock == s.sh.last + 100_000
      && s.sh.rate == rate && s.sh.burst == BurstFor(rate) && s.sh.tokens == BurstFor(rate) * MILLI
  {
    ExecSnoc(InitShaper(mbps, 2), [], Tick(100_000));
    assert [] + [Tick(100_000)] == [Tick(100_000)];
  }

  lemma IdleTenth(sh: Shared)
    requires sh.rate >= MIN_RATE && sh.burst == BurstFor(sh.rate) && sh.tokens == sh.burst * MILLI
    requires sh.clock == sh.last + 100_000
    ensures SecondHelping(sh) == sh.burst * MILLI >= MILLI && !OneBurst(sh)
    ensures sh.tokens % MILLI == 0 && sh.tokens / MILLI == sh.burst && sh.burst * MILLI <= sh.rate * 100_000
  {
    assert Straddle(sh, sh.clock, sh.rate, sh.burst) == MICRO * sh.burst;
  }

  // ----- A lost race is somebody's progress -----

  /** The thread's last reading of the cell it wants to exchange is still true. */
  predicate Current(sh: Shared, pc: Pc) {
    match pc
    case RefillAdd(_, _, _, _, seen) => seen == sh.tokens
    case SpendCas(_, seen) => seen == sh.tokens
    case ClampCas(_, seen) => seen == sh.tokens
    case RttCas(_, base) => base == sh.base
    case _ => true
  }

  /** A compare-exchange loop goes round again, other than by a spurious failure. */
  predicate Retries(sh: Shared, pc: Pc) {
    var next := StepPc(sh, pc, false).1;
    || (pc.RefillAdd? && next.RefillAdd?)
    || (pc.SpendCas? && next.SpendCas?)
    || (pc.ClampCas? && next.ClampCas?)
    || (pc.RttCas? && next.RttCas?)
  }

  /** Another thread's compare-exchange succeeds and takes it out of its loop. */
  predicate Succeeds(s: State, a: Action, i: nat) {
    && a.Run? && a.thread < |s.threads| && a.thread != i
    && var pc := s.threads[a.thread]; var (sh', pc') := StepPc(s.sh, pc, a.spurious);
       || (pc.RefillAdd? && pc'.SpendLoad? && sh'.tokens != s.sh.tokens)
       || (pc.SpendCas? && pc'.Idle? && sh'.tokens < s.sh.tokens)
       || (pc.ClampCas? && pc'.Idle? && sh'.tokens < s.sh.tokens)
       || (pc.RttCas? && pc'.RttReload? && sh'.base < s.sh.base)
  }

  predicate SomeoneSucceeds(s: State, actions: seq<Action>, i: nat)
    decreases |actions|
  {
    actions != []
    && (Succeeds(s, actions[0], i) || SomeoneSucceeds(Apply(s, actions[0]), actions[1..], i))
  }

  lemma ReadingIsCurrent(sh: Shared, pc: Pc, spurious: bool)
    ensures var (sh', pc') := StepPc(sh, pc, spurious); Current(sh', pc')
  {
  }

  lemma RetryIsStale(sh: Shared, pc: Pc)
    requires Retries(sh, pc)
    ensures !Current(sh, pc)
  {
  }

  lemma OthersLeaveAlone(s: State, a: Action, i: nat)
    requires i < |s.threads| && !s.threads[i].Idle? && (a.Run? ==> a.thread != i)
    ensures |Apply(s, a).threads| == |s.threads| && Apply(s, a).threads[i] == s.threads[i]
  {
  }

  /** Only a success elsewhere makes a reading stale. */
  lemma StaleBySuccess(s: State, a: Action, i: nat, pc: Pc)
    requires Current(s.sh, pc) && (a.Run? ==> a.thread != i)
    ensures Current(Apply(s, a).sh, pc) || Succeeds(s, a, i)
  {
  }

  lemma {:induction false} StaleMeansProgress(s: State, actions: seq<Action>, i: nat, pc: Pc)
    requires i < |s.threads| && s.threads[i] == pc && !pc.Idle?
    requires forall a :: a in actions && a.Run? ==> a.thread != i
    ensures var e := Exec(s, actions);
      && |e.threads| == |s.threads| && e.threads[i] == pc
      && (Current(s.sh, pc) ==> Current(e.sh, pc) || SomeoneSucceeds(s, actions, i))
    decreases |actions|
  {
    if actions == [] {
    } else {
      OthersLeaveAlone(s, actions[0], i);
      if Current(s.sh, pc) {
        StaleBySuccess(s, actions[0], i, pc);
      }
      StaleMeansProgress(Apply(s, actions[0]), actions[1..], i, pc);
    }
  }

  /** Lock-freedom. Whatever a thread's last step was, if after any actions of the others its
      compare-exchange loop goes round again other than spuriously, then some other thread's
      exchange has succeeded in between. */
  lemma RetryMeansProgress(s: State, i: nat, spurious: bool, actions: seq<Action>)
    requires i < |s.threads| && forall a :: a in actions && a.Run? ==> a.thread != i
    ensures var read := Apply(s, Run(i, spurious)); var e := Exec(read, actions);
      !read.threads[i].Idle? ==> i < |e.threads| && (Retries(e.sh, e.threads[i]) ==> SomeoneSucceeds(read, actions, i))
  {
    var read := Apply(s, Run(i, spurious));
    ReadingIsCurrent(s.sh, s.threads[i], spurious);
    if !read.threads[i].Idle? {
      StaleMeansProgress(read, actions, i, read.threads[i]);
      var e := Exec(read, actions);
      if Retries(e.sh, e.threads[i]) {
        RetryIsStale(e.sh, e.threads[i]);
      }
    }
  }
}
