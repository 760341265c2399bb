/** The wake-up protocol of `PriorityQueue::{push, pop}`: any number of producers, one consumer and
    a `Notify` that stores at most one permit.

    A push inserts under a lane's lock and notifies afterwards; a pop checks the realtime lane,
    then the bulk lane, then awaits `notified()`. Each of these is a step of its own. The `Notify`
    follows tokio's documentation: `notify_one` wakes the waiting task or else stores the permit,
    and `notified()` consumes a stored permit or else waits. The send loop may drop a pending pop
    when its flush timer fires. */
module WakeUp {
  import opened Bytes
  import opened Priority

  datatype Consumer =
    | CheckRealtime
    | CheckBulk
    | Polling            // both lanes were seen empty; about to poll `notified()`
    | Waiting            // registered with the Notify
    | Woken              // notified, not yet resumed
    | Done(p: Packet)

  datatype Producer = Idle | MustNotify

  /** What the lanes accepted, what became of the realtime packets taken out, what each successful
      pop took, and what the caller of `pop` has got. */
  datatype History = History(acceptedRealtime: seq<Entry>, acceptedBulk: seq<Packet>,
                             fates: seq<Fate>, outs: seq<Outcome>, returned: seq<Packet>)

  datatype State = State(q: Queue, permit: bool, consumer: Consumer, producers: seq<Producer>, clock: nat,
                         history: History)

  datatype Action =
    | Tick(d: nat)
    | Insert(producer: nat, p: Packet, priority: Priority)
    | NotifyOne(producer: nat)
    | Consume
    | Cancel(forwards: bool)   // drop a pending pop; a received notification may be passed on
    | NextPop

  function Apply(s: State, a: Action): State {
    match a
    case Tick(d) => s.(clock := s.clock + d)
    case Insert(i, p, priority) =>
      if i < |s.producers| && s.producers[i].Idle? then
        var (q, accepted) := Push(s.q, p, priority, s.clock);
        if accepted
        then s.(q := q, producers := s.producers[i := MustNotify], history := Accept(s.history, p, priority, s.clock))
        else s
      else s
    case NotifyOne(i) =>
      if i < |s.producers| && s.producers[i].MustNotify? then
        var s' := s.(producers := s.producers[i := Idle]);
        if s.consumer.Waiting? then s'.(consumer := Woken) else s'.(permit := true)
      else s
    case Consume => ConsumerStep(s)
    case Cancel(forwards) =>
      match s.consumer {
        case Polling => s.(consumer := CheckRealtime)
        case Waiting => s.(consumer := CheckRealtime)
        case Woken => s.(consumer := CheckRealtime, permit := s.permit || forwards)
        case _ => s
      }
    case NextPop =>
      if s.consumer.Done?
      then s.(consumer := CheckRealtime, history := s.history.(returned := s.history.returned + [s.consumer.p]))
      else s
  }

  function Accept(h: History, p: Packet, priority: Priority, now: nat): History {
    match priority
    case Realtime => h.(acceptedRealtime := h.acceptedRealtime + [Entry(now, p)])
    case Bulk => h.(acceptedBulk := h.acceptedBulk + [p])
  }

  function TakeRealtime(h: History, r: RealtimePop, now: nat): History {
    var gone := h.fates + DiscardAll(r.discarded, now);
    if r.popped.None? then h.(fates := gone)
    else h.(fates := gone + [Delivered(r.popped.value, now)], outs := h.outs + [FromRealtime(r.popped.value)])
  }

  function ConsumerStep(s: State): State {
    match s.consumer
    case CheckRealtime =>
      var r := PopRealtime(s.q.realtime, s.clock);
      var s' := s.(q := s.q.(realtime := r.lane), history := TakeRealtime(s.history, r, s.clock));
      if r.popped.Some? then s'.(consumer := Done(r.popped.value.p)) else s'.(consumer := CheckBulk)
    case CheckBulk =>
      if s.q.bulk == [] then s.(consumer := Polling)
      else s.(q := s.q.(bulk := s.q.bulk[1..]), consumer := Done(s.q.bulk[0]),
              history := s.history.(outs := s.history.outs + [FromBulk(s.q.bulk[0])]))
    case Polling => if s.permit then s.(permit := false, consumer := CheckRealtime) else s.(consumer := Waiting)
    case Woken => s.(consumer := CheckRealtime)
    case Waiting => s
    case Done(_) => s
  }

  function Exec(s: State, actions: seq<Action>): State
    decreases |actions|
  {
    if actions == [] then s else Exec(Apply(s, actions[0]), actions[1..])
  }

  function Init(capacity: nat, producers: nat): State {
    State(Queue([], [], capacity), false, CheckRealtime, seq(producers, _ => Idle), 0, History([], [], [], [], []))
  }

  predicate SomeoneWillNotify(s: State) { exists i :: 0 <= i < |s.producers| && s.producers[i].MustNotify? }

  /** Whatever the consumer may have missed is announced by a permit or a notification to come. */
  predicate Safe(s: State) {
    match s.consumer
    case CheckBulk => s.q.realtime != [] ==> s.permit || SomeoneWillNotify(s)
    case Polling => s.q.realtime != [] || s.q.bulk != [] ==> s.permit || SomeoneWillNotify(s)
    case Waiting => !s.permit && (s.q.realtime != [] || s.q.bulk != [] ==> SomeoneWillNotify(s))
    case _ => true
  }

  lemma InsertIsSafe(s: State, i: nat, p: Packet, priority: Priority)
    requires Safe(s)
    ensures Safe(Apply(s, Insert(i, p, priority)))
  {
    var s' := Apply(s, Insert(i, p, priority));
    if s' != s {
      assert s'.producers[i].MustNotify?;
    }
  }

  lemma NotifyIsSafe(s: State, i: nat)
    requires Safe(s)
    ensures Safe(Apply(s, NotifyOne(i)))
  {
  }

  lemma ConsumeIsSafe(s: State)
    requires Safe(s)
    ensures Safe(ConsumerStep(s))
  {
    var s' := ConsumerStep(s);
    if SomeoneWillNotify(s) {
      var i :| 0 <= i < |s.producers| && s.producers[i].MustNotify?;
      assert s'.producers[i].MustNotify?;
    }
  }

  lemma ApplyIsSafe(s: State, a: Action)
    requires Safe(s)
    ensures Safe(Apply(s, a))
  {
    match a {
      case Insert(i, p, priority) => InsertIsSafe(s, i, p, priority);
      case NotifyOne(i) => NotifyIsSafe(s, i);
      case Consume => ConsumeIsSafe(s);
      case Tick(_) =>
        if SomeoneWillNotify(s) {
          var i :| 0 <= i < |s.producers| && s.producers[i].MustNotify?;
          assert Apply(s, a).producers[i].MustNotify?;
        }
      case Cancel(_) =>
      case NextPop =>
    }
  }

  lemma {:induction false} ExecIsSafe(s: State, actions: seq<Action>)
    requires Safe(s)
    ensures Safe(Exec(s, actions))
    decreases |actions|
  {
    if actions == [] {
    } else {
      ApplyIsSafe(s, actions[0]);
      ExecIsSafe(Apply(s, actions[0]), actions[1..]);
    }
  }

  /** No lost wake-up: in every interleaving, whenever the consumer waits and a packet is queued,
      some producer has yet to notify. So once every push has returned, a waiting consumer means
      that both lanes are empty. */
  lemma NoLostWakeUp(capacity: nat, producers: nat, actions: seq<Action>)
    ensures var s := Exec(Init(capacity, producers), actions);
      s.consumer.Waiting? ==>
        && (s.q.realtime != [] || s.q.bulk != [] ==> SomeoneWillNotify(s))
        && ((forall i :: 0 <= i < |s.producers| ==> s.producers[i].Idle?) ==> s.q.realtime == [] && s.q.bulk == [])
  {
    ExecIsSafe(Init(capacity, producers), actions);
  }

  // ----- What is returned -----

  function BulkOf(outs: seq<Outcome>): seq<Packet> {
    if outs == [] then []
    else BulkOf(outs[..|outs| - 1]) + if outs[|outs| - 1].FromBulk? then [outs[|outs| - 1].p] else []
  }

  function RealtimeOf(outs: seq<Outcome>): seq<Entry> {
    if outs == [] then []
    else RealtimeOf(outs[..|outs| - 1]) + if outs[|outs| - 1].FromRealtime? then [outs[|outs| - 1].e] else []
  }

  function PacketsOf(outs: seq<Outcome>): seq<Packet> {
    if outs == [] then []
    else
      var p := PacketOf(outs[|outs| - 1]);
      PacketsOf(outs[..|outs| - 1]) + if p.Some? then [p.value] else []
  }

  function DeliveredOf(fates: seq<Fate>): seq<Entry> {
    if fates == [] then []
    else DeliveredOf(fates[..|fates| - 1]) + if fates[|fates| - 1].Delivered? then [fates[|fates| - 1].e] else []
  }

  /** What the callers have got, and the packet that a finished pop holds for its caller. */
  function WithInHand(returned: seq<Packet>, c: Consumer): seq<Packet> {
    if c.Done? then returned + [c.p] else returned
  }

  /** Each lane gives out what it accepted, in order, once; realtime packets are delivered exactly
      if they are at most 10 ms old when taken out; and what the callers of `pop` get is exactly what
      the pops took, in order. */
  predicate Conserves(s: State) {
    && RealtimeKept(s.history, s.q.realtime)
    && BulkOf(s.history.outs) + s.q.bulk == s.history.acceptedBulk
    && WithInHand(s.history.returned, s.consumer) == PacketsOf(s.history.outs)
  }

  predicate RealtimeKept(h: History, lane: seq<Entry>) {
    && Entries(h.fates) + lane == h.acceptedRealtime && RealtimeOf(h.outs) == DeliveredOf(h.fates)
    && (forall f :: f in h.fates ==> (f.Delivered? <==> f.at - f.e.ts <= 10_000_000))
  }

  lemma OutsSnoc(outs: seq<Outcome>, o: Outcome)
    ensures BulkOf(outs + [o]) == BulkOf(outs) + if o.FromBulk? then [o.p] else []
    ensures RealtimeOf(outs + [o]) == RealtimeOf(outs) + if o.FromRealtime? then [o.e] else []
    ensures PacketsOf(outs + [o]) == PacketsOf(outs) + if PacketOf(o).Some? then [PacketOf(o).value] else []
  {
    assert (outs + [o])[..|outs|] == outs;
  }

  lemma {:induction false} DiscardsDeliverNothing(fates: seq<Fate>, es: seq<Entry>, now: nat)
    ensures DeliveredOf(fates + DiscardAll(es, now)) == DeliveredOf(fates)
    decreases |es|
  {
    var gone := DiscardAll(es, now);
    if es == [] {
      assert fates + gone == fates;
    } else {
      DiscardsDeliverNothing(fates, es[..|es| - 1], now);
      assert (fates + gone)[..|fates + gone| - 1] == fates + DiscardAll(es[..|es| - 1], now);
    }
  }

  function Added(r: RealtimePop, now: nat): seq<Fate> {
    DiscardAll(r.discarded, now) + if r.popped.Some? then [Delivered(r.popped.value, now)] else []
  }

  lemma TakeAdds(h: History, r: RealtimePop, now: nat)
    ensures TakeRealtime(h, r, now).fates == h.fates + Added(r, now)
  {
    if r.popped.Some? {
      ConcatAssoc(h.fates, DiscardAll(r.discarded, now), [Delivered(r.popped.value, now)]);
    }
  }

  lemma TakeDelivers(h: History, r: RealtimePop, now: nat)
    requires RealtimeOf(h.outs) == DeliveredOf(h.fates)
    ensures var h' := TakeRealtime(h, r, now); RealtimeOf(h'.outs) == DeliveredOf(h'.fates)
  {
    var gone := h.fates + DiscardAll(r.discarded, now);
    DiscardsDeliverNothing(h.fates, r.discarded, now);
    if r.popped.Some? {
      OutsSnoc(h.outs, FromRealtime(r.popped.value));
      assert (gone + [Delivered(r.popped.value, now)])[..|gone|] == gone;
    }
  }

  /** Realtime packets taken off the front of their lane. */
  lemma TakeConserves(h: History, lane: seq<Entry>, now: nat)
    requires RealtimeKept(h, lane)
    ensures var r := PopRealtime(lane, now); RealtimeKept(TakeRealtime(h, r, now), r.lane)
  {
    var r := PopRealtime(lane, now);
    PopHistory(lane, now);
    ExtendHistory(h.fates, Added(r, now), lane, r.lane, h.acceptedRealtime);
    TakeDelivers(h, r, now);
    TakeAdds(h, r, now);
  }

  lemma CheckRealtimeConserves(s: State)
    requires Conserves(s) && s.consumer.CheckRealtime?
    ensures Conserves(ConsumerStep(s))
  {
    var r := PopRealtime(s.q.realtime, s.clock);
    RealtimeStep(s, r);
    TakeConserves(s.history, s.q.realtime, s.clock);
    TakeReturns(s.history, r, s.clock);
  }

  lemma RealtimeStep(s: State, r: RealtimePop)
    requires s.consumer.CheckRealtime? && r == PopRealtime(s.q.realtime, s.clock)
    ensures ConsumerStep(s) == s.(q := s.q.(realtime := r.lane), history := TakeRealtime(s.history, r, s.clock),
              consumer := if r.popped.Some? then Done(r.popped.value.p) else CheckBulk)
  {
  }

  lemma TakeReturns(h: History, r: RealtimePop, now: nat)
    ensures var h' := TakeRealtime(h, r, now);
      && BulkOf(h'.outs) == BulkOf(h.outs)
      && PacketsOf(h'.outs) == if r.popped.Some? then PacketsOf(h.outs) + [r.popped.value.p] else PacketsOf(h.outs)
  {
    if r.popped.Some? {
      OutsSnoc(h.outs, FromRealtime(r.popped.value));
    }
  }

  lemma CheckBulkConserves(s: State)
    requires Conserves(s) && s.consumer.CheckBulk? && s.q.bulk != []
    ensures Conserves(ConsumerStep(s))
  {
    var p, rest := s.q.bulk[0], s.q.bulk[1..];
    OutsSnoc(s.history.outs, FromBulk(p));
    assert s.q.bulk == [p] + rest;
    ConcatAssoc(BulkOf(s.history.outs), [p], rest);
  }

  lemma ConsumeConserves(s: State)
    requires Conserves(s)
    ensures Conserves(ConsumerStep(s))
  {
    if s.consumer.CheckRealtime? {
      CheckRealtimeConserves(s);
    } else if s.consumer.CheckBulk? && s.q.bulk != [] {
      CheckBulkConserves(s);
    }
  }

  lemma InsertConserves(s: State, i: nat, p: Packet, priority: Priority)
    requires Conserves(s)
    ensures Conserves(Apply(s, Insert(i, p, priority)))
  {
  }

  lemma ApplyConserves(s: State, a: Action)
    requires Conserves(s)
    ensures Conserves(Apply(s, a))
  {
    match a {
      case Consume => ConsumeConserves(s);
      case Insert(i, p, priority) => InsertConserves(s, i, p, priority);
      case _ =>
    }
  }

  lemma {:induction false} ExecConserves(s: State, actions: seq<Action>)
    requires Conserves(s)
    ensures Conserves(Exec(s, actions))
    decreases |actions|
  {
    if actions == [] {
    } else {
      ApplyConserves(s, actions[0]);
      ExecConserves(Apply(s, actions[0]), actions[1..]);
    }
  }

  /** In every interleaving of producers, consumer, clock and cancelled pops: bulk returned followed
      by bulk queued is bulk accepted, realtime delivered or discarded followed by realtime queued
      is realtime accepted, and the callers get exactly what was taken out. */
  lemma PopsConserve(capacity: nat, producers: nat, actions: seq<Action>)
    ensures Conserves(Exec(Init(capacity, producers), actions))
  {
    ExecConserves(Init(capacity, producers), actions);
  }

  /** With no other step in between, checking the lanes one after the other is `try_pop`. */
  lemma ChecksAreTryPop(s: State)
    requires s.consumer.CheckRealtime?
    ensures var (q, o) := TryPop(s.q, s.clock); var first := ConsumerStep(s);
      var last := if first.consumer.CheckBulk? then ConsumerStep(first) else first;
      last.q == q && last.consumer == if PacketOf(o).Some? then Done(PacketOf(o).value) else Polling
  {
  }

  /** A push is what the queue's push says, and is followed by a notification exactly if it was
      accepted. */
  lemma InsertIsPush(s: State, i: nat, p: Packet, priority: Priority)
    requires i < |s.producers| && s.producers[i].Idle?
    ensures var s', (q, accepted) := Apply(s, Insert(i, p, priority)), Push(s.q, p, priority, s.clock);
      s'.q == q && s'.producers == s.producers[i := if accepted then MustNotify else Idle] && s'.consumer == s.consumer
  {
    assert s.producers[i := Idle] == s.producers;
  }

  /** A packet pushed while the consumer waits at empty lanes is what that pop returns, and the next
      pop can begin. */
  lemma PushedIsPopped(s: State, i: nat, p: Packet)
    requires s.consumer.Waiting? && s.q.realtime == [] && s.q.bulk == [] && s.q.capacity > 0
    requires i < |s.producers| && s.producers[i].Idle?
    ensures var e := Exec(s, [Insert(i, p, Bulk)] + ([NotifyOne(i)] + PopBulk()));
      && e.history.returned == s.history.returned + [p] && e.consumer == CheckRealtime
      && e.q == s.q && e.producers == s.producers
  {
    var inserted := Apply(s, Insert(i, p, Bulk));
    var woken := Apply(inserted, NotifyOne(i));
    ExecCons(s, Insert(i, p, Bulk), [NotifyOne(i)] + PopBulk());
    ExecCons(inserted, NotifyOne(i), PopBulk());
    assert s.q.bulk + [p] == [p];
    assert woken.producers == s.producers;
    PopsTheOnly(woken, p);
  }

  function PopBulk(): seq<Action> { [Consume] + ([Consume] + ([Consume] + ([NextPop] + []))) }

  lemma PopsTheOnly(s: State, p: Packet)
    requires s.consumer.Woken? && s.q.realtime == [] && s.q.bulk == [p]
    ensures var e := Exec(s, PopBulk());
      && e.history.returned == s.history.returned + [p] && e.consumer == CheckRealtime
      && e.q == s.q.(bulk := []) && e.producers == s.producers
  {
    var s1, s2 := ConsumerStep(s), ConsumerStep(ConsumerStep(s));
    assert s2.consumer == CheckBulk && s2.q == s.q && s2.history.returned == s.history.returned;
    var s3 := ConsumerStep(s2);
    assert s3.consumer == Done(p) && [p][1..] == [];
    ExecCons(s, Consume, [Consume] + ([Consume] + ([NextPop] + [])));
    ExecCons(s1, Consume, [Consume] + ([NextPop] + []));
    ExecCons(s2, Consume, [NextPop] + []);
    ExecCons(s3, NextPop, []);
  }

  lemma ExecCons(s: State, a: Action, rest: seq<Action>)
    ensures Exec(s, [a] + rest) == Exec(Apply(s, a), rest)
  {
    assert ([a] + rest)[1..] == rest;
  }

  // ----- Delivery -----

  /** The consumer returns a packet at some point of the run. */
  predicate Returns(s: State, actions: seq<Action>)
    decreases |actions|
  {
    s.consumer.Done? || (actions != [] && Returns(Apply(s, actions[0]), actions[1..]))
  }

  function Consumes(actions: seq<Action>): nat {
    if actions == [] then 0 else (if actions[0].Consume? then 1 else 0) + Consumes(actions[1..])
  }

  /** What waits for the consumer: a bulk packet, or a realtime packet that is fresh until `until`. */
  datatype Target = AnyBulk | Urgent(e: Entry, until: nat)

  predicate Queued(s: State, t: Target) {
    match t
    case AnyBulk => s.q.bulk != []
    case Urgent(e, until) => e in s.q.realtime && s.clock <= until && Fresh(e, until)
  }

  /** The consumer steps that lead to the target, if no notification is needed; a check of the bulk
      lane comes too late for an urgent packet and has to go round. */
  function StepsLeft(s: State, t: Target): nat {
    match s.consumer
    case CheckBulk => if t.AnyBulk? || s.q.bulk != [] then 1 else 3
    case CheckRealtime => if t.AnyBulk? then 2 else 1
    case Polling => if t.AnyBulk? then 3 else 2
    case Woken => if t.AnyBulk? then 3 else 2
    case Waiting => 3
    case Done(_) => 0
  }

  /** The consumer is on its way to the target: it is not parked, nor about to park. */
  predicate Awake(s: State, t: Target) {
    match s.consumer
    case CheckBulk => t.AnyBulk? || s.q.bulk != [] || s.permit
    case Polling => s.permit
    case Waiting => false
    case _ => true
  }

  /** ... or producer i is going to see to that. */
  predicate Announced(s: State, t: Target, i: nat) {
    Awake(s, t) || (i < |s.producers| && s.producers[i].MustNotify?)
  }

  /** One action of a run without cancellation, at a consumer that has not returned yet. */
  predicate Runs(s: State, a: Action) { !s.consumer.Done? && !a.Cancel? }

  lemma PopFindsFresh(lane: seq<Entry>, now: nat, e: Entry)
    requires e in lane && Fresh(e, now)
    ensures PopRealtime(lane, now).popped.Some?
  {
    PopRealtimeSplits(lane, now);
  }

  /** A target stays queued until the consumer returns something. */
  lemma StaysQueued(s: State, a: Action, t: Target)
    requires Runs(s, a) && Queued(s, t) && (t.Urgent? ==> Apply(s, a).clock <= t.until)
    ensures Apply(s, a).consumer.Done? || Queued(Apply(s, a), t)
  {
    if t.Urgent? && a.Consume? && s.consumer.CheckRealtime? {
      PopFindsFresh(s.q.realtime, s.clock, t.e);
    }
  }

  /** Once awake, the consumer stays so, and each of its own steps brings it nearer. */
  lemma AwakeAdvances(s: State, a: Action, t: Target)
    requires Runs(s, a) && Queued(s, t) && Awake(s, t)
    ensures var s' := Apply(s, a);
      Awake(s', t) && StepsLeft(s', t) + (if a.Consume? then 1 else 0) <= StepsLeft(s, t)
  {
    if t.Urgent? && a.Consume? && s.consumer.CheckRealtime? {
      PopFindsFresh(s.q.realtime, s.clock, t.e);
    }
  }

  /** A producer that has to notify still has to, until its own notification wakes the consumer. */
  lemma AnnouncedAdvances(s: State, a: Action, t: Target, i: nat)
    requires Runs(s, a) && Queued(s, t) && Announced(s, t, i)
    ensures Announced(Apply(s, a), t, i)
    ensures a == NotifyOne(i) ==> Awake(Apply(s, a), t)
  {
    if Awake(s, t) {
      AwakeAdvances(s, a, t);
    }
  }

  lemma {:induction false} ClockIsMonotone(s: State, actions: seq<Action>)
    ensures s.clock <= Exec(s, actions).clock
    decreases |actions|
  {
    if actions == [] {
    } else {
      ClockIsMonotone(Apply(s, actions[0]), actions[1..]);
    }
  }

  lemma {:induction false} AwakeReturns(s: State, actions: seq<Action>, t: Target)
    requires forall a :: a in actions ==> !a.Cancel?
    requires Queued(s, t) && Awake(s, t) && (t.Urgent? ==> Exec(s, actions).clock <= t.until)
    requires StepsLeft(s, t) <= Consumes(actions)
    ensures Returns(s, actions)
    decreases |actions|
  {
    if s.consumer.Done? || actions == [] {
    } else {
      var s' := Apply(s, actions[0]);
      ClockIsMonotone(s', actions[1..]);
      StaysQueued(s, actions[0], t);
      AwakeAdvances(s, actions[0], t);
      if !s'.consumer.Done? {
        AwakeReturns(s', actions[1..], t);
      }
    }
  }

  lemma {:induction false} AnnouncedReturns(s: State, before: seq<Action>, after: seq<Action>, t: Target, i: nat)
    requires forall a :: a in before + after ==> !a.Cancel?
    requires Queued(s, t) && (t.Urgent? ==> Exec(s, before + after).clock <= t.until)
    requires Awake(s, t) || (Announced(s, t, i) && NotifyOne(i) in before)
    requires 3 <= Consumes(after)
    ensures Returns(s, before + after)
    decreases |before|
  {
    if s.consumer.Done? {
    } else if before == [] {
      assert before + after == after;
      AwakeReturns(s, after, t);
    } else {
      var a, rest, s' := before[0], before[1..], Apply(s, before[0]);
      assert (before + after)[1..] == rest + after && a in before + after;
      ClockIsMonotone(s', rest + after);
      StaysQueued(s, a, t);
      if Awake(s, t) {
        AwakeAdvances(s, a, t);
      } else {
        AnnouncedAdvances(s, a, t, i);
      }
      if !s'.consumer.Done? {
        assert forall b :: b in rest + after ==> b in before + after;
        AnnouncedReturns(s', rest, after, t, i);
      }
    }
  }

  /** And every notification does its work. In every reachable state with a packet queued, bulk or
      one that stays fresh, take any continuation in which the pop is not cancelled: once the
      producers that had yet to notify have done so, three steps of the consumer are enough for it
      to return a packet, whatever producers and clock do in between. */
  lemma WakeUpDelivers(capacity: nat, producers: nat, run: seq<Action>,
                       before: seq<Action>, after: seq<Action>, t: Target)
    requires forall a :: a in before + after ==> !a.Cancel?
    requires var s := Exec(Init(capacity, producers), run);
      && Queued(s, t) && (t.Urgent? ==> Exec(s, before + after).clock <= t.until)
      && forall i :: 0 <= i < |s.producers| && s.producers[i].MustNotify? ==> NotifyOne(i) in before
    requires 3 <= Consumes(after)
    ensures Returns(Exec(Init(capacity, producers), run), before + after)
  {
    var s := Exec(Init(capacity, producers), run);
    ExecIsSafe(Init(capacity, producers), run);
    if Awake(s, t) {
      AnnouncedReturns(s, before, after, t, 0);
    } else {
      var i :| 0 <= i < |s.producers| && s.producers[i].MustNotify?;
      AnnouncedReturns(s, before, after, t, i);
    }
  }
}
