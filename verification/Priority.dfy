/** `priority.rs`: classification, and the two-lane queue with stale dropping.
    Times are nanoseconds of a monotone clock. */
module Priority {
  import opened Bytes

  const REALTIME_MAX_AGE: nat := 10_000_000

  datatype Priority = Realtime | Bulk

  function Classify(p: Packet): Priority {
    if |p| < 20 || HighNibble(p[0]) != 4 then Bulk
    else if p[1] / 4 == 46 then Realtime
    else if p[9] != 17 then Bulk
    else
      var ihl := p[0] % 16 * 4;
      if |p| < ihl + 4 then Bulk
      else if FromBe16(p[ihl + 2], p[ihl + 3]) == 53 then Realtime
      else if |p| < 300 then Realtime
      else Bulk
  }

  datatype Entry = Entry(ts: nat, p: Packet)

  datatype Queue = Queue(realtime: seq<Entry>, bulk: seq<Packet>, capacity: nat)

  /** `now.duration_since(ts) <= REALTIME_MAX_AGE`, where the difference saturates at zero. */
  predicate Fresh(e: Entry, now: nat) { now <= e.ts + REALTIME_MAX_AGE }

  function Push(q: Queue, p: Packet, priority: Priority, now: nat): (Queue, bool) {
    match priority
    case Realtime =>
      if |q.realtime| >= q.capacity / 4 then (q, false)
      else (q.(realtime := q.realtime + [Entry(now, p)]), true)
    case Bulk =>
      if |q.bulk| >= q.capacity then (q, false) else (q.(bulk := q.bulk + [p]), true)
  }

  /** The number of stale packets at the front of the realtime lane. */
  function StalePrefix(lane: seq<Entry>, now: nat): (k: nat)
    ensures k <= |lane|
    ensures forall i :: 0 <= i < k ==> !Fresh(lane[i], now)
    ensures k < |lane| ==> Fresh(lane[k], now)
  {
    if lane == [] || Fresh(lane[0], now) then 0 else 1 + StalePrefix(lane[1..], now)
  }

  /** The first half of `try_pop`, under the realtime lock: what is discarded and what is returned. */
  datatype RealtimePop = RealtimePop(lane: seq<Entry>, discarded: seq<Entry>, popped: Option<Entry>)

  function PopRealtime(lane: seq<Entry>, now: nat): RealtimePop {
    var k := StalePrefix(lane, now);
    if k == |lane| then RealtimePop([], lane, None)
    else RealtimePop(lane[k + 1..], lane[..k], Some(lane[k]))
  }

  datatype Outcome = Nothing | FromRealtime(e: Entry) | FromBulk(p: Packet)

  function TryPop(q: Queue, now: nat): (Queue, Outcome) {
    var r := PopRealtime(q.realtime, now);
    var q' := q.(realtime := r.lane);
    if r.popped.Some? then (q', FromRealtime(r.popped.value))
    else if q.bulk == [] then (q', Nothing)
    else (q'.(bulk := q.bulk[1..]), FromBulk(q.bulk[0]))
  }

  function PacketOf(o: Outcome): Option<Packet> {
    match o
    case Nothing => None
    case FromRealtime(e) => Some(e.p)
    case FromBulk(p) => Some(p)
  }

  class PriorityQueue {
    var realtime: seq<Entry>
    var bulk: seq<Packet>
    const capacity: nat

    ghost function State(): Queue
      reads this
    {
      Queue(realtime, bulk, capacity)
    }

    constructor (capacity: nat)
      ensures State() == Queue([], [], capacity)
    {
      this.realtime, this.bulk, this.capacity := [], [], capacity;
    }

    method Enqueue(packet: Packet, priority: Priority, now: nat) returns (accepted: bool)
      modifies this
      ensures (State(), accepted) == Push(old(State()), packet, priority, now)
    {
      match priority {
        case Realtime =>
          if |realtime| >= capacity / 4 {
            return false;
          }
          realtime := realtime + [Entry(now, packet)];
        case Bulk =>
          if |bulk| >= capacity {
            return false;
          }
          bulk := bulk + [packet];
      }
      return true;
    }

    method Dequeue(now: nat) returns (packet: Option<Packet>)
      modifies this
      ensures var (q, o) := TryPop(old(State()), now); State() == q && packet == PacketOf(o)
    {
      ghost var lane, k := realtime, 0;
      while realtime != []
        invariant k <= |lane| && realtime == lane[k..]
        invariant StalePrefix(lane, now) == k + StalePrefix(realtime, now)
        invariant bulk == old(bulk)
        decreases |realtime|
      {
        var front := realtime[0];
        realtime := realtime[1..];
        k := k + 1;
        if Fresh(front, now) {
          return Some(front.p);
        }
      }
      if bulk == [] {
        return None;
      }
      packet := Some(bulk[0]);
      bulk := bulk[1..];
    }
  }

  // ----- Runs -----

  datatype Op = PushOp(p: Packet, priority: Priority, now: nat) | PopOp(now: nat)

  /** What became of a realtime packet taken out of the lane at time `at`. */
  datatype Fate = Delivered(e: Entry, at: nat) | Discarded(e: Entry, at: nat)

  /** The queue with its history. `otherPops` records, for every pop that returned no realtime
      packet, when it ran, the queue it found and whether it returned a bulk packet; `refusals`
      records the lane and the queue of every refused push. */
  datatype Log = Log(q: Queue, clock: nat, acceptedRealtime: seq<Entry>, fates: seq<Fate>,
                     acceptedBulk: seq<Packet>, deliveredBulk: seq<Packet>,
                     otherPops: seq<(nat, Queue, bool)>, refusals: seq<(Priority, Queue)>)

  function NewLog(capacity: nat): Log {
    Log(Queue([], [], capacity), 0, [], [], [], [], [], [])
  }

  function DiscardAll(es: seq<Entry>, now: nat): seq<Fate> {
    seq(|es|, i requires 0 <= i < |es| => Discarded(es[i], now))
  }

  function StepLog(l: Log, op: Op): Log {
    match op
    case PushOp(p, priority, now) =>
      var (q, accepted) := Push(l.q, p, priority, now);
      var l' := l.(q := q, clock := now);
      if !accepted then l'.(refusals := l.refusals + [(priority, l.q)])
      else if priority == Realtime then l'.(acceptedRealtime := l.acceptedRealtime + [Entry(now, p)])
      else l'.(acceptedBulk := l.acceptedBulk + [p])
    case PopOp(now) =>
      var (q, o) := TryPop(l.q, now);
      var gone := DiscardAll(PopRealtime(l.q.realtime, now).discarded, now);
      var l' := l.(q := q, clock := now);
      match o
      case Nothing => l'.(fates := l.fates + gone, otherPops := l.otherPops + [(now, l.q, false)])
      case FromRealtime(e) => l'.(fates := l.fates + gone + [Delivered(e, now)])
      case FromBulk(p) => l'.(fates := l.fates + gone, deliveredBulk := l.deliveredBulk + [p],
                              otherPops := l.otherPops + [(now, l.q, true)])
  }

  function RunLog(capacity: nat, ops: seq<Op>): Log {
    if ops == [] then NewLog(capacity) else StepLog(RunLog(capacity, ops[..|ops| - 1]), ops[|ops| - 1])
  }

  predicate MonotoneClock(ops: seq<Op>) {
    forall i, j :: 0 <= i < j < |ops| ==> ops[i].now <= ops[j].now
  }

  function Entries(fates: seq<Fate>): seq<Entry> {
    seq(|fates|, i requires 0 <= i < |fates| => fates[i].e)
  }

  predicate Sorted(lane: seq<Entry>) {
    forall i, j :: 0 <= i < j < |lane| ==> lane[i].ts <= lane[j].ts
  }

  /** Realtime packets leave in arrival order, each once: delivered fresh or discarded stale. */
  predicate RealtimeLawful(l: Log) {
    && Sorted(l.q.realtime)
    && (forall e :: e in l.q.realtime ==> e.ts <= l.clock)
    && |l.q.realtime| <= l.q.capacity / 4
    && Entries(l.fates) + l.q.realtime == l.acceptedRealtime
    && forall f :: f in l.fates ==> (f.Delivered? <==> f.at - f.e.ts <= 10_000_000)
  }

  /** Bulk packets leave in arrival order, each once, and only past stale realtime packets; a pop
      comes back empty-handed only if there is no bulk packet either. */
  predicate BulkLawful(l: Log) {
    && |l.q.bulk| <= l.q.capacity
    && l.deliveredBulk + l.q.bulk == l.acceptedBulk
    && forall b :: b in l.otherPops ==>
         (forall e :: e in b.1.realtime ==> b.0 - e.ts > 10_000_000) && (b.2 <==> b.1.bulk != [])
  }

  /** A push is refused only when its lane is full. */
  predicate RefusalsLawful(l: Log) {
    forall r :: r in l.refusals ==>
      if r.0 == Realtime then |r.1.realtime| >= l.q.capacity / 4 else |r.1.bulk| >= l.q.capacity
  }

  lemma EntriesConcat(a: seq<Fate>, b: seq<Fate>)
    ensures Entries(a + b) == Entries(a) + Entries(b)
  {
  }

  lemma PopRealtimeSplits(lane: seq<Entry>, now: nat)
    ensures var r := PopRealtime(lane, now);
      && lane == r.discarded + (if r.popped.Some? then [r.popped.value] else []) + r.lane
      && (forall e :: e in r.discarded ==> !Fresh(e, now))
      && (r.popped.Some? ==> Fresh(r.popped.value, now))
      && (r.popped.None? ==> r.lane == [])
  {
  }

  /** The fates a pop adds are those of the packets it takes off the front of the lane. */
  lemma PopHistory(lane: seq<Entry>, now: nat)
    ensures var r := PopRealtime(lane, now);
      var last := if r.popped.Some? then [Delivered(r.popped.value, now)] else [];
      && lane == Entries(DiscardAll(r.discarded, now) + last) + r.lane
      && forall f :: f in DiscardAll(r.discarded, now) + last ==> (f.Delivered? <==> f.at - f.e.ts <= 10_000_000)
  {
    var r := PopRealtime(lane, now);
    PopRealtimeSplits(lane, now);
    var gone, last := DiscardAll(r.discarded, now), if r.popped.Some? then [Delivered(r.popped.value, now)] else [];
    EntriesConcat(gone, last);
    assert Entries(gone) == r.discarded;
    assert Entries(last) == if r.popped.Some? then [r.popped.value] else [];
  }

  lemma ExtendHistory(fates: seq<Fate>, added: seq<Fate>, lane: seq<Entry>, lane': seq<Entry>, accepted: seq<Entry>)
    requires Entries(fates) + lane == accepted && lane == Entries(added) + lane'
    ensures Entries(fates + added) + lane' == accepted
  {
    EntriesConcat(fates, added);
    assert Entries(fates) + (Entries(added) + lane') == Entries(fates) + Entries(added) + lane';
  }

  lemma SuffixIsLawful(lane: seq<Entry>, gone: seq<Entry>, lane': seq<Entry>)
    requires lane == gone + lane' && Sorted(lane)
    ensures Sorted(lane') && |lane'| <= |lane| && forall e :: e in lane' ==> e in lane
  {
    assert forall i :: 0 <= i < |lane'| ==> lane'[i] == lane[|gone| + i];
  }

  lemma PopKeepsRealtimeLawful(l: Log, now: nat)
    requires RealtimeLawful(l) && l.clock <= now
    ensures RealtimeLawful(StepLog(l, PopOp(now)))
  {
    var r, l' := PopRealtime(l.q.realtime, now), StepLog(l, PopOp(now));
    var added := DiscardAll(r.discarded, now) + if r.popped.Some? then [Delivered(r.popped.value, now)] else [];
    PopHistory(l.q.realtime, now);
    ExtendHistory(l.fates, added, l.q.realtime, r.lane, l.acceptedRealtime);
    SuffixIsLawful(l.q.realtime, Entries(added), r.lane);
    assert l'.fates == l.fates + added;
  }

  lemma PushKeepsLawful(l: Log, op: Op)
    requires op.PushOp? && RealtimeLawful(l) && BulkLawful(l) && RefusalsLawful(l) && l.clock <= op.now
    ensures RealtimeLawful(StepLog(l, op)) && BulkLawful(StepLog(l, op)) && RefusalsLawful(StepLog(l, op))
  {
  }

  lemma PopKeepsBulkLawful(l: Log, now: nat)
    requires BulkLawful(l)
    ensures BulkLawful(StepLog(l, PopOp(now)))
  {
    PopRealtimeSplits(l.q.realtime, now);
  }

  lemma StepIsLawful(l: Log, op: Op)
    requires RealtimeLawful(l) && BulkLawful(l) && RefusalsLawful(l) && l.clock <= op.now
    ensures var l' := StepLog(l, op);
      RealtimeLawful(l') && BulkLawful(l') && RefusalsLawful(l') && l'.clock == op.now
  {
    match op {
      case PushOp(_, _, _) => PushKeepsLawful(l, op);
      case PopOp(now) =>
        PopKeepsRealtimeLawful(l, now);
        PopKeepsBulkLawful(l, now);
    }
  }

  lemma FrontIsMonotone(ops: seq<Op>)
    requires ops != [] && MonotoneClock(ops)
    ensures var front := ops[..|ops| - 1];
      MonotoneClock(front) && (front == [] || front[|front| - 1].now <= ops[|ops| - 1].now)
  {
    assert |ops| > 1 ==> ops[|ops| - 2].now <= ops[|ops| - 1].now;
  }

  /** Over every run of pushes and pops with a monotone clock: the realtime lane stays sorted by
      time, both lanes stay within bounds, every accepted packet is exactly once delivered,
      discarded or still queued, in lane order, a realtime packet is delivered exactly if it is at
      most 10 ms old when taken out and discarded otherwise, a bulk packet is returned only when
      every realtime packet in the queue has expired, a pop returns nothing only if there is no
      bulk packet either, and a push is refused only by a full lane. */
  lemma {:induction false} RunIsLawful(capacity: nat, ops: seq<Op>)
    requires MonotoneClock(ops)
    ensures var l := RunLog(capacity, ops);
      && RealtimeLawful(l) && BulkLawful(l) && RefusalsLawful(l)
      && l.clock == (if ops == [] then 0 else ops[|ops| - 1].now)
  {
    if ops == [] {
    } else {
      var front, op := ops[..|ops| - 1], ops[|ops| - 1];
      FrontIsMonotone(ops);
      RunIsLawful(capacity, front);
      StepIsLawful(RunLog(capacity, front), op);
    }
  }
}
