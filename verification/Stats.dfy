/** `Stats::record_send` of `stats.rs` under concurrency: fetch-adds on the counters and
    compare-exchange loops on the minimum and maximum, one access per step, any number of threads.
    Counters are unbounded here: 64-bit wrap-around of the sums is not modelled. */
module Stats {
  import opened Arithmetic

  datatype Pc =
    | Idle
    | CountSent(size: nat)
    | AddBytes(size: nat)
    | AddSum(size: nat)
    | MinLoad(size: nat)
    | MinCas(size: nat, seen: nat)
    | MaxLoad(size: nat)
    | MaxCas(size: nat, seen: nat)

  /** The atomics; `begun` is the history of sizes with which `record_send` was called. */
  datatype Shared = Shared(sent: nat, bytes: nat, sum: nat, min: nat, max: nat, begun: seq<nat>)

  datatype State = State(sh: Shared, threads: seq<Pc>)

  datatype Action = Record(thread: nat, size: nat) | Run(thread: nat, spurious: bool)

  function StepPc(sh: Shared, pc: Pc, spurious: bool): (Shared, Pc) {
    match pc
    case Idle => (sh, Idle)
    case CountSent(n) => (sh.(sent := sh.sent + 1), AddBytes(n))
    case AddBytes(n) => (sh.(bytes := sh.bytes + n), AddSum(n))
    case AddSum(n) => (sh.(sum := sh.sum + n), MinLoad(n))
    case MinLoad(n) => (sh, MinCas(n, sh.min))
    case MinCas(n, seen) =>
      if seen <= n then (sh, MaxLoad(n))
      else if sh.min == seen && !spurious then (sh.(min := n), MaxLoad(n))
      else (sh, MinCas(n, sh.min))
    case MaxLoad(n) => (sh, MaxCas(n, sh.max))
    case MaxCas(n, seen) =>
      if n <= seen then (sh, Idle)
      else if sh.max == seen && !spurious then (sh.(max := n), Idle)
      else (sh, MaxCas(n, sh.max))
  }

  function Apply(s: State, a: Action): State {
    if a.thread >= |s.threads| then s
    else
      match a
      case Record(i, n) =>
        if s.threads[i].Idle?
        then State(s.sh.(begun := s.sh.begun + [n]), s.threads[i := CountSent(n)]) else s
      case Run(i, spurious) =>
        var (sh, pc) := StepPc(s.sh, s.threads[i], spurious);
        State(sh, s.threads[i := pc])
  }

  function Exec(s: State, actions: seq<Action>): State
    decreases |actions|
  {
    if actions == [] then s else Exec(Apply(s, actions[0]), actions[1..])
  }

  function Init(n: nat): State { State(Shared(0, 0, 0, U64_MAX, 0, []), seq(n, _ => Idle)) }

  function Total(sizes: seq<nat>): nat {
    if sizes == [] then 0 else Total(sizes[..|sizes| - 1]) + sizes[|sizes| - 1]
  }

  // ----- Extremes -----

  predicate MinPending(pc: Pc) { pc.CountSent? || pc.AddBytes? || pc.AddSum? || pc.MinLoad? || pc.MinCas? }

  predicate Owes(pc: Pc, size: nat, min: bool) {
    !pc.Idle? && pc.size == size && (min ==> MinPending(pc))
  }

  predicate SomeoneOwes(ts: seq<Pc>, size: nat, min: bool) {
    exists i :: 0 <= i < |ts| && Owes(ts[i], size, min)
  }

  predicate GoodPc(sh: Shared, pc: Pc) {
    && (!pc.Idle? ==> pc.size in sh.begun)
    && (pc.MinCas? ==> sh.min <= pc.seen)
    && (pc.MaxCas? ==> pc.seen <= sh.max)
  }

  /** Every size begun is within the extremes, or its thread has yet to see to that; and the
      extremes are sizes that occurred. */
  predicate ExtremesInv(sh: Shared, ts: seq<Pc>) {
    && (forall i :: 0 <= i < |ts| ==> GoodPc(sh, ts[i]))
    && (forall x :: x in sh.begun ==> sh.min <= x || SomeoneOwes(ts, x, true))
    && (forall x :: x in sh.begun ==> x <= sh.max || SomeoneOwes(ts, x, false))
    && (sh.min == U64_MAX || sh.min in sh.begun)
    && (sh.max == 0 || sh.max in sh.begun)
  }

  /** What a step does: extremes only widen, and a thread that stops owing has paid. */
  lemma StepPays(sh: Shared, pc: Pc, spurious: bool)
    requires GoodPc(sh, pc)
    ensures var (sh', pc') := StepPc(sh, pc, spurious);
      && sh'.begun == sh.begun && sh'.min <= sh.min && sh.max <= sh'.max
      && GoodPc(sh', pc')
      && (forall x: nat :: Owes(pc, x, true) && !Owes(pc', x, true) ==> sh'.min <= x)
      && (forall x: nat :: Owes(pc, x, false) && !Owes(pc', x, false) ==> x <= sh'.max)
      && (sh'.min == sh.min || sh'.min in sh.begun) && (sh'.max == sh.max || sh'.max in sh.begun)
  {
  }

  lemma OwesKept(ts: seq<Pc>, i: nat, pc: Pc, x: nat, min: bool)
    requires i < |ts| && SomeoneOwes(ts, x, min) && (Owes(ts[i], x, min) ==> Owes(pc, x, min))
    ensures SomeoneOwes(ts[i := pc], x, min)
  {
    var k :| 0 <= k < |ts| && Owes(ts[k], x, min);
    assert Owes(ts[i := pc][k], x, min);
  }

  lemma RunKeepsExtremes(sh: Shared, ts: seq<Pc>, i: nat, spurious: bool)
    requires ExtremesInv(sh, ts) && i < |ts|
    ensures var (sh', pc') := StepPc(sh, ts[i], spurious); ExtremesInv(sh', ts[i := pc'])
  {
    var (sh', pc') := StepPc(sh, ts[i], spurious);
    StepPays(sh, ts[i], spurious);
    var ts' := ts[i := pc'];
    forall x | x in sh'.begun ensures sh'.min <= x || SomeoneOwes(ts', x, true) {
      if sh'.min > x {
        OwesKept(ts, i, pc', x, true);
      }
    }
    forall x | x in sh'.begun ensures x <= sh'.max || SomeoneOwes(ts', x, false) {
      if x > sh'.max {
        OwesKept(ts, i, pc', x, false);
      }
    }
  }

  lemma RecordKeepsExtremes(sh: Shared, ts: seq<Pc>, i: nat, n: nat)
    requires ExtremesInv(sh, ts) && i < |ts| && ts[i].Idle?
    ensures ExtremesInv(sh.(begun := sh.begun + [n]), ts[i := CountSent(n)])
  {
    var sh', ts' := sh.(begun := sh.begun + [n]), ts[i := CountSent(n)];
    assert Owes(ts'[i], n, true) && Owes(ts'[i], n, false);
    forall x, min | x in sh.begun && SomeoneOwes(ts, x, min) ensures SomeoneOwes(ts', x, min) {
      OwesKept(ts, i, CountSent(n), x, min);
    }
  }

  // ----- Sums -----

  function CountLeft(pc: Pc): nat { if pc.CountSent? then 1 else 0 }
  function BytesLeft(pc: Pc): nat { if pc.CountSent? || pc.AddBytes? then pc.size else 0 }
  function SumLeft(pc: Pc): nat { if pc.CountSent? || pc.AddBytes? || pc.AddSum? then pc.size else 0 }

  ghost predicate SumsInv(s: State) {
    && s.sh.sent + Sum(s.threads, CountLeft) == |s.sh.begun|
    && s.sh.bytes + Sum(s.threads, BytesLeft) == Total(s.sh.begun)
    && s.sh.sum + Sum(s.threads, SumLeft) == Total(s.sh.begun)
  }

  lemma StepSums(sh: Shared, pc: Pc, spurious: bool)
    ensures var (sh', pc') := StepPc(sh, pc, spurious);
      && sh'.begun == sh.begun
      && sh'.sent + CountLeft(pc') == sh.sent + CountLeft(pc)
      && sh'.bytes + BytesLeft(pc') == sh.bytes + BytesLeft(pc)
      && sh'.sum + SumLeft(pc') == sh.sum + SumLeft(pc)
  {
  }

  lemma LeftUpdates(ts: seq<Pc>, i: nat, pc: Pc)
    requires i < |ts|
    ensures Sum(ts[i := pc], CountLeft) + CountLeft(ts[i]) == Sum(ts, CountLeft) + CountLeft(pc)
    ensures Sum(ts[i := pc], BytesLeft) + BytesLeft(ts[i]) == Sum(ts, BytesLeft) + BytesLeft(pc)
    ensures Sum(ts[i := pc], SumLeft) + SumLeft(ts[i]) == Sum(ts, SumLeft) + SumLeft(pc)
  {
    SumUpdate(ts, i, pc, CountLeft);
    SumUpdate(ts, i, pc, BytesLeft);
    SumUpdate(ts, i, pc, SumLeft);
  }

  lemma ApplyKeepsSums(s: State, a: Action)
    requires SumsInv(s)
    ensures SumsInv(Apply(s, a))
  {
    if a.thread < |s.threads| {
      match a
      case Run(i, spurious) =>
        StepSums(s.sh, s.threads[i], spurious);
        LeftUpdates(s.threads, i, StepPc(s.sh, s.threads[i], spurious).1);
      case Record(i, n) =>
        LeftUpdates(s.threads, i, CountSent(n));
        assert (s.sh.begun + [n])[..|s.sh.begun|] == s.sh.begun;
    }
  }

  // ----- Every run -----

  ghost predicate Inv(s: State) { ExtremesInv(s.sh, s.threads) && SumsInv(s) }

  lemma ApplyKeepsInv(s: State, a: Action)
    requires Inv(s)
    ensures Inv(Apply(s, a))
  {
    ApplyKeepsSums(s, a);
    if a.thread < |s.threads| {
      match a
      case Record(i, n) => if s.threads[i].Idle? { RecordKeepsExtremes(s.sh, s.threads, i, n); }
      case Run(i, spurious) => RunKeepsExtremes(s.sh, s.threads, i, spurious);
    }
  }

  lemma {:induction false} ExecKeepsInv(s: State, actions: seq<Action>)
    requires Inv(s)
    ensures Inv(Exec(s, actions))
    decreases |actions|
  {
    if actions == [] {
    } else {
      ApplyKeepsInv(s, actions[0]);
      ExecKeepsInv(Apply(s, actions[0]), actions[1..]);
    }
  }

  lemma InitIsGood(n: nat)
    ensures Inv(Init(n))
  {
    SumZero(Init(n).threads, CountLeft);
    SumZero(Init(n).threads, BytesLeft);
    SumZero(Init(n).threads, SumLeft);
  }

  /** In every interleaving, once all recorders have finished, minimum, maximum, sum, byte count and
      datagram count are those of the sizes recorded: no update is lost to a race. */
  lemma FinalStatsAreExact(n: nat, actions: seq<Action>)
    requires forall a :: a in actions && a.Record? ==> a.size <= U64_MAX
    ensures var s := Exec(Init(n), actions); var sizes := s.sh.begun;
      (forall t :: t in s.threads ==> t.Idle?) ==>
        && s.sh.sent == |sizes| && s.sh.bytes == Total(sizes) && s.sh.sum == Total(sizes)
        && (forall x :: x in sizes ==> s.sh.min <= x <= s.sh.max)
        && (sizes != [] ==> s.sh.min in sizes && s.sh.max in sizes)
        && (sizes == [] ==> s.sh.min == U64_MAX && s.sh.max == 0)
  {
    InitIsGood(n);
    ExecKeepsInv(Init(n), actions);
    BegunFits(Init(n), actions);
    var s := Exec(Init(n), actions);
    if forall t :: t in s.threads ==> t.Idle? {
      SumZero(s.threads, CountLeft);
      SumZero(s.threads, BytesLeft);
      SumZero(s.threads, SumLeft);
      forall x | x in s.sh.begun ensures s.sh.min <= x <= s.sh.max {
        NobodyOwes(s.threads, x, true);
        NobodyOwes(s.threads, x, false);
      }
      if s.sh.begun != [] {
        assert s.sh.begun[0] in s.sh.begun;
      }
    }
  }

  lemma NobodyOwes(ts: seq<Pc>, x: nat, min: bool)
    requires forall t :: t in ts ==> t.Idle?
    ensures !SomeoneOwes(ts, x, min)
  {
  }

  lemma {:induction false} BegunFits(s: State, actions: seq<Action>)
    requires forall a :: a in actions && a.Record? ==> a.size <= U64_MAX
    requires forall x :: x in s.sh.begun ==> x <= U64_MAX
    ensures forall x :: x in Exec(s, actions).sh.begun ==> x <= U64_MAX
    decreases |actions|
  {
    if actions == [] {
    } else {
      assert actions[0] in actions;
      BegunFits(Apply(s, actions[0]), actions[1..]);
    }
  }

  /** Global progress: if a compare-exchange fails other than spuriously, another thread has
      improved the extreme since this thread last read it. */
  lemma FailureMeansProgress(n: nat, actions: seq<Action>, i: nat)
    ensures var s := Exec(Init(n), actions);
      i < |s.threads| ==>
        var pc, next := s.threads[i], StepPc(s.sh, s.threads[i], false).1;
        && (pc.MinCas? && next.MinCas? ==> s.sh.min < pc.seen && next.seen == s.sh.min)
        && (pc.MaxCas? && next.MaxCas? ==> s.sh.max > pc.seen && next.seen == s.sh.max)
  {
    InitIsGood(n);
    ExecKeepsInv(Init(n), actions);
    var s := Exec(Init(n), actions);
    if i < |s.threads| {
      assert GoodPc(s.sh, s.threads[i]);
    }
  }

  // ----- One recorder -----

  function Least(a: nat, b: nat): nat { if a <= b then a else b }
  function Most(a: nat, b: nat): nat { if a <= b then b else a }

  /** What one call records. */
  function Recorded(sh: Shared, n: nat): Shared {
    Shared(sh.sent + 1, sh.bytes + n, sh.sum + n, Least(sh.min, n), Most(sh.max, n), sh.begun + [n])
  }

  lemma ExecCons(s: State, a: Action, rest: seq<Action>)
    ensures Exec(s, [a] + rest) == Exec(Apply(s, a), rest)
  {
    assert ([a] + rest)[1..] == rest;
  }

  function Runs(i: nat, k: nat): seq<Action> { if k == 0 then [] else [Run(i, false)] + Runs(i, k - 1) }

  /** A call that is not disturbed is over after seven steps and has recorded its size everywhere;
      further steps of its thread do nothing. */
  lemma RecordAlone(s: State, i: nat, n: nat, k: nat)
    requires i < |s.threads| && s.threads[i].Idle?
    ensures Exec(s, [Record(i, n)] + Runs(i, k + 7)) == State(Recorded(s.sh, n), s.threads)
  {
    var sh := s.sh.(begun := s.sh.begun + [n]);
    ExecCons(s, Record(i, n), Runs(i, k + 7));
    CountAlone(sh, s.threads, i, n, k + 4);
    ExtremesAlone(sh.(sent := sh.sent + 1, bytes := sh.bytes + n, sum := sh.sum + n), s.threads, i, n, k);
    assert s.threads[i := Idle] == s.threads;
    IdleStays(State(Recorded(s.sh, n), s.threads), i, k);
  }

  lemma {:induction false} IdleStays(s: State, i: nat, k: nat)
    requires i < |s.threads| && s.threads[i].Idle?
    ensures Exec(s, Runs(i, k)) == s
  {
    if k == 0 {
    } else {
      ExecCons(s, Run(i, false), Runs(i, k - 1));
      assert s.threads[i := Idle] == s.threads;
      IdleStays(s, i, k - 1);
    }
  }

  lemma CountAlone(sh: Shared, ts: seq<Pc>, i: nat, n: nat, k: nat)
    requires i < |ts|
    ensures Exec(State(sh, ts[i := CountSent(n)]), Runs(i, k + 3))
      == Exec(State(sh.(sent := sh.sent + 1, bytes := sh.bytes + n, sum := sh.sum + n), ts[i := MinLoad(n)]), Runs(i, k))
  {
    var sh1 := sh.(sent := sh.sent + 1);
    var sh2 := sh1.(bytes := sh.bytes + n);
    Next(sh, CountSent(n), ts, i, sh1, AddBytes(n), k + 2);
    Next(sh1, AddBytes(n), ts, i, sh2, AddSum(n), k + 1);
    Next(sh2, AddSum(n), ts, i, sh2.(sum := sh.sum + n), MinLoad(n), k);
  }

  lemma ExtremesAlone(sh: Shared, ts: seq<Pc>, i: nat, n: nat, k: nat)
    requires i < |ts|
    ensures Exec(State(sh, ts[i := MinLoad(n)]), Runs(i, k + 4))
      == Exec(State(sh.(min := Least(sh.min, n), max := Most(sh.max, n)), ts[i := Idle]), Runs(i, k))
  {
    var sh1 := sh.(min := Least(sh.min, n));
    Next(sh, MinLoad(n), ts, i, sh, MinCas(n, sh.min), k + 3);
    Next(sh, MinCas(n, sh.min), ts, i, sh1, MaxLoad(n), k + 2);
    Next(sh1, MaxLoad(n), ts, i, sh1, MaxCas(n, sh.max), k + 1);
    Next(sh1, MaxCas(n, sh.max), ts, i, sh1.(max := Most(sh.max, n)), Idle, k);
  }

  lemma Next(sh: Shared, pc: Pc, ts: seq<Pc>, i: nat, sh': Shared, pc': Pc, k: nat)
    requires i < |ts| && StepPc(sh, pc, false) == (sh', pc')
    ensures Exec(State(sh, ts[i := pc]), Runs(i, k + 1)) == Exec(State(sh', ts[i := pc']), Runs(i, k))
  {
    ExecCons(State(sh, ts[i := pc]), Run(i, false), Runs(i, k));
    assert ts[i := pc][i := pc'] == ts[i := pc'];
  }
}
