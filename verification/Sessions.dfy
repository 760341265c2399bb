/** Session lifecycles over the shared address pool, router and counters: the QUIC, h3, TCP Reality
    and WebSocket handlers of `server.rs` and `reality.rs`, any number of them interleaving.

    Every operation on shared state is a step of its own. In particular `release` and the drop of
    the `ClientHandle`, which unregisters the address, are two steps, as in the source. An address
    is its host number; a session's queue is named by the session. */
module Sessions {
  import opened Arithmetic
  import opened Bytes
  import IpPool

  datatype Kind = Quic | H3 | Reality | WebSocket

  datatype Phase =
    | NotStarted
    | Connected
    | Authenticated
    | Allocated(ip: nat)
    | Configured(ip: nat)   // Reality, WebSocket: session config sent
    | Counted(ip: nat)      // Reality, WebSocket: connection counted
    | Guarded(ip: nat)      // Reality, WebSocket: session counted too
    | Registered(ip: nat)   // in the router, tunnel running
    | Released(ip: nat)     // address given back, handle not yet dropped
    | Unwinding             // guards being dropped
    | Ended

  datatype Session = Session(kind: Kind, phase: Phase, connGuard: bool, sessionGuard: bool)

  datatype World = World(pool: set<nat>, routes: map<nat, nat>, sessions: seq<Session>,
                         activeConnections: int, activeSessions: int)

  datatype Action =
    | Start(i: nat, kind: Kind)
    | Quit(i: nat)            // failed handshake, bad or missing authentication, probe
    | Authenticate(i: nat)
    | AllocateIp(i: nat)
    | ConfigFailed(i: nat)    // Reality, WebSocket: the config could not be written
    | ConfigSent(i: nat)
    | TakeGuard(i: nat)       // Reality, WebSocket: count the connection, then the session
    | Register(i: nat)
    | Release(i: nat)         // tunnel ended, or QUIC/h3 config could not be written
    | DropHandle(i: nat)
    | DropGuard(i: nat)

  predicate EarlyGuards(kind: Kind) { kind.Quic? || kind.H3? }

  function With(w: World, i: nat, s: Session): World
    requires i < |w.sessions|
  {
    w.(sessions := w.sessions[i := s])
  }

  /** An action that does not apply leaves the world as it is. */
  function Apply(w: World, a: Action): World {
    if a.i >= |w.sessions| then w
    else
      var i, s := a.i, w.sessions[a.i];
      match a
      case Start(_, kind) =>
        if !s.phase.NotStarted? then w
        else if EarlyGuards(kind)
        then With(w, i, Session(kind, Connected, true, false)).(activeConnections := w.activeConnections + 1)
        else With(w, i, Session(kind, Connected, false, false))
      case Quit(_) => if s.phase.Connected? then With(w, i, s.(phase := Unwinding)) else w
      case Authenticate(_) =>
        if !s.phase.Connected? then w
        else if EarlyGuards(s.kind)
        then With(w, i, s.(phase := Authenticated, sessionGuard := true)).(activeSessions := w.activeSessions + 1)
        else With(w, i, s.(phase := Authenticated))
      case AllocateIp(_) =>
        if !s.phase.Authenticated? then w
        else
          match IpPool.Allocate(w.pool) {
            case None => With(w, i, s.(phase := Unwinding))
            case Some(ip) => With(w, i, s.(phase := Allocated(ip))).(pool := w.pool + {ip})
          }
      case ConfigFailed(_) =>
        if s.phase.Allocated? && !EarlyGuards(s.kind)
        then With(w, i, s.(phase := Unwinding)).(pool := w.pool - {s.phase.ip}) else w
      case ConfigSent(_) =>
        if s.phase.Allocated? && !EarlyGuards(s.kind)
        then With(w, i, s.(phase := Configured(s.phase.ip))) else w
      case TakeGuard(_) =>
        if s.phase.Configured?
        then With(w, i, s.(phase := Counted(s.phase.ip), connGuard := true))
             .(activeConnections := w.activeConnections + 1)
        else if s.phase.Counted?
        then With(w, i, s.(phase := Guarded(s.phase.ip), sessionGuard := true))
             .(activeSessions := w.activeSessions + 1)
        else w
      case Register(_) =>
        if (s.phase.Allocated? && EarlyGuards(s.kind)) || (s.phase.Guarded? && s.kind.Reality?)
        then With(w, i, s.(phase := Registered(s.phase.ip))).(routes := w.routes[s.phase.ip := i])
        else w
      case Release(_) =>
        if s.phase.Registered?
        then With(w, i, s.(phase := Released(s.phase.ip))).(pool := w.pool - {s.phase.ip})
        else if s.phase.Guarded? && s.kind.WebSocket?
        then With(w, i, s.(phase := Unwinding)).(pool := w.pool - {s.phase.ip})
        else w
      case DropHandle(_) =>
        if s.phase.Released?
        then With(w, i, s.(phase := Unwinding)).(routes := w.routes - {s.phase.ip}) else w
      case DropGuard(_) =>
        if !s.phase.Unwinding? then w
        else if s.sessionGuard
        then With(w, i, s.(sessionGuard := false)).(activeSessions := w.activeSessions - 1)
        else if s.connGuard
        then With(w, i, s.(connGuard := false)).(activeConnections := w.activeConnections - 1)
        else With(w, i, s.(phase := Ended))
  }

  function Exec(w: World, actions: seq<Action>): World
    decreases |actions|
  {
    if actions == [] then w else Exec(Apply(w, actions[0]), actions[1..])
  }

  function Init(n: nat): World {
    World({}, map[], seq(n, _ => Session(Quic, NotStarted, false, false)), 0, 0)
  }

  // ----- Addresses -----

  /** The address a session holds, from allocate to release. */
  function Held(s: Session): Option<nat> {
    if s.phase.Allocated? || s.phase.Configured? || s.phase.Counted? || s.phase.Guarded? || s.phase.Registered?
    then Some(s.phase.ip) else None
  }

  /** The address under which a session's handle is alive. */
  function Handle(s: Session): Option<nat> {
    if s.phase.Registered? || s.phase.Released? then Some(s.phase.ip) else None
  }

  predicate IsRegistered(ss: seq<Session>, i: nat, ip: nat) {
    i < |ss| && ss[i].phase == Registered(ip)
  }

  predicate SomeoneHolds(ss: seq<Session>, ip: nat) { exists i :: 0 <= i < |ss| && Held(ss[i]) == Some(ip) }

  /** The pool's set is exactly the addresses held, and no two sessions hold the same one. */
  ghost predicate PoolExact(pool: set<nat>, ss: seq<Session>) {
    && (forall ip :: ip in pool ==> IpPool.IsHost(ip) && SomeoneHolds(ss, ip))
    && (forall i :: 0 <= i < |ss| && Held(ss[i]).Some? ==> Held(ss[i]).value in pool)
    && (forall i, j :: 0 <= i < j < |ss| && Held(ss[i]).Some? ==> Held(ss[i]) != Held(ss[j]))
  }

  /** Every route leads to the queue of a session whose handle is alive under that address, and a
      registered session's address never leads to another session's queue. */
  ghost predicate RoutesSound(routes: map<nat, nat>, ss: seq<Session>) {
    && (forall ip :: ip in routes ==> routes[ip] < |ss| && Handle(ss[routes[ip]]) == Some(ip))
    && (forall i: nat, ip: nat :: IsRegistered(ss, i, ip) && ip in routes ==> routes[ip] == i)
  }

  /** Which guards a session has in each phase, and which kinds of session get there. */
  predicate GuardsMatchPhase(s: Session) {
    match s.phase
    case NotStarted => !s.connGuard && !s.sessionGuard
    case Connected => s.connGuard == EarlyGuards(s.kind) && !s.sessionGuard
    case Authenticated => s.connGuard == EarlyGuards(s.kind) && s.sessionGuard == EarlyGuards(s.kind)
    case Allocated(_) => s.connGuard == EarlyGuards(s.kind) && s.sessionGuard == EarlyGuards(s.kind)
    case Configured(_) => !s.connGuard && !s.sessionGuard && !EarlyGuards(s.kind)
    case Counted(_) => s.connGuard && !s.sessionGuard && !EarlyGuards(s.kind)
    case Guarded(_) => s.connGuard && s.sessionGuard && !EarlyGuards(s.kind)
    case Registered(_) => s.connGuard && s.sessionGuard && !s.kind.WebSocket?
    case Released(_) => s.connGuard && s.sessionGuard && !s.kind.WebSocket?
    case Unwinding => s.sessionGuard ==> s.connGuard
    case Ended => !s.connGuard && !s.sessionGuard
  }

  function ConnGuards(s: Session): nat { if s.connGuard then 1 else 0 }

  function SessionGuards(s: Session): nat { if s.sessionGuard then 1 else 0 }

  /** The connection and session counters count the guards alive. */
  ghost predicate CountersExact(w: World) {
    && w.activeConnections == Sum(w.sessions, ConnGuards)
    && w.activeSessions == Sum(w.sessions, SessionGuards)
    && forall i :: 0 <= i < |w.sessions| ==> GuardsMatchPhase(w.sessions[i])
  }

  ghost predicate Inv(w: World) {
    PoolExact(w.pool, w.sessions) && RoutesSound(w.routes, w.sessions) && CountersExact(w)
  }

  // ----- Counters -----

  /** Between two worlds the counters change by the guards that session i takes or drops. */
  predicate GuardStep(w: World, w': World, i: nat)
    requires i < |w.sessions|
  {
    && |w'.sessions| == |w.sessions|
    && var s, s' := w.sessions[i], w'.sessions[i];
       && GuardsMatchPhase(s')
       && w'.sessions == w.sessions[i := s']
       && w'.activeConnections - w.activeConnections == ConnGuards(s') - ConnGuards(s)
       && w'.activeSessions - w.activeSessions == SessionGuards(s') - SessionGuards(s)
  }

  predicate OpensSession(a: Action) { a.Start? || a.Quit? || a.Authenticate? || a.AllocateIp? || a.ConfigSent? }

  lemma OpeningGuards(w: World, a: Action)
    requires a.i < |w.sessions| && GuardsMatchPhase(w.sessions[a.i]) && OpensSession(a)
    ensures GuardStep(w, Apply(w, a), a.i)
  {
  }

  lemma ClosingGuards(w: World, a: Action)
    requires a.i < |w.sessions| && GuardsMatchPhase(w.sessions[a.i]) && !OpensSession(a)
    ensures GuardStep(w, Apply(w, a), a.i)
  {
  }

  /** What one action does to its own session and to the two counters. */
  lemma GuardDelta(w: World, a: Action)
    requires a.i < |w.sessions| && GuardsMatchPhase(w.sessions[a.i])
    ensures GuardStep(w, Apply(w, a), a.i)
  {
    if OpensSession(a) {
      OpeningGuards(w, a);
    } else {
      ClosingGuards(w, a);
    }
  }

  lemma CountersStayExact(w: World, a: Action)
    requires CountersExact(w)
    ensures CountersExact(Apply(w, a))
  {
    if a.i < |w.sessions| {
      GuardDelta(w, a);
      var s' := Apply(w, a).sessions[a.i];
      SumUpdate(w.sessions, a.i, s', ConnGuards);
      SumUpdate(w.sessions, a.i, s', SessionGuards);
    }
  }

  // ----- Pool -----

  lemma PoolKept(pool: set<nat>, ss: seq<Session>, i: nat, s: Session)
    requires PoolExact(pool, ss) && i < |ss| && Held(s) == Held(ss[i])
    ensures PoolExact(pool, ss[i := s])
  {
    forall ip | ip in pool ensures SomeoneHolds(ss[i := s], ip) {
      assert SomeoneHolds(ss, ip);
      var k :| 0 <= k < |ss| && Held(ss[k]) == Some(ip);
      assert Held(ss[i := s][k]) == Some(ip);
    }
  }

  lemma PoolGrown(pool: set<nat>, ss: seq<Session>, i: nat, s: Session, ip: nat)
    requires PoolExact(pool, ss) && i < |ss| && Held(ss[i]) == None
    requires ip !in pool && IpPool.IsHost(ip) && Held(s) == Some(ip)
    ensures PoolExact(pool + {ip}, ss[i := s])
  {
    forall x | x in pool + {ip} ensures SomeoneHolds(ss[i := s], x) {
      if x == ip {
        assert Held(ss[i := s][i]) == Some(x);
      } else {
        assert SomeoneHolds(ss, x);
        var k :| 0 <= k < |ss| && Held(ss[k]) == Some(x);
        assert Held(ss[i := s][k]) == Some(x);
      }
    }
  }

  lemma PoolShrunk(pool: set<nat>, ss: seq<Session>, i: nat, s: Session, ip: nat)
    requires PoolExact(pool, ss) && i < |ss| && Held(ss[i]) == Some(ip) && Held(s) == None
    ensures PoolExact(pool - {ip}, ss[i := s])
  {
    forall x | x in pool - {ip} ensures SomeoneHolds(ss[i := s], x) {
      assert SomeoneHolds(ss, x);
      var k :| 0 <= k < |ss| && Held(ss[k]) == Some(x);
      assert Held(ss[i := s][k]) == Some(x);
    }
  }

  /** Between two worlds session i keeps its address, takes a free one, or gives its own back. */
  ghost predicate PoolStep(w: World, w': World, i: nat)
    requires i < |w.sessions| == |w'.sessions|
  {
    var s, s' := w.sessions[i], w'.sessions[i];
    || (w'.pool == w.pool && Held(s') == Held(s))
    || (Held(s) == None && Held(s').Some? && Held(s').value !in w.pool && IpPool.IsHost(Held(s').value)
        && w'.pool == w.pool + {Held(s').value})
    || (Held(s).Some? && Held(s') == None && w'.pool == w.pool - {Held(s).value})
  }

  /** Every action keeps the held address, takes a free one, or gives the held one back. */
  lemma PoolDelta(w: World, a: Action)
    requires a.i < |w.sessions|
    ensures var w' := Apply(w, a);
      w'.sessions == w.sessions[a.i := w'.sessions[a.i]] && PoolStep(w, w', a.i)
  {
    if a.AllocateIp? {
      AllocateDelta(w, a.i);
    }
  }

  lemma AllocateDelta(w: World, i: nat)
    requires i < |w.sessions|
    ensures PoolStep(w, Apply(w, AllocateIp(i)), i)
  {
  }

  lemma PoolStaysExact(w: World, a: Action)
    requires PoolExact(w.pool, w.sessions)
    ensures PoolExact(Apply(w, a).pool, Apply(w, a).sessions)
  {
    if a.i < |w.sessions| {
      PoolDelta(w, a);
      var w' := Apply(w, a);
      var s, s' := w.sessions[a.i], w'.sessions[a.i];
      if Held(s') == Held(s) {
        PoolKept(w.pool, w.sessions, a.i, s');
      } else if Held(s') == None {
        PoolShrunk(w.pool, w.sessions, a.i, s', Held(s).value);
      } else {
        PoolGrown(w.pool, w.sessions, a.i, s', Held(s').value);
      }
    }
  }

  // ----- Routes -----

  lemma RoutesKept(routes: map<nat, nat>, ss: seq<Session>, i: nat, s: Session)
    requires RoutesSound(routes, ss) && i < |ss| && Handle(s) == Handle(ss[i])
    requires s.phase.Registered? ==> ss[i].phase == s.phase
    ensures RoutesSound(routes, ss[i := s])
  {
    var ss' := ss[i := s];
    forall k: nat, x: nat | IsRegistered(ss', k, x) && x in routes ensures routes[x] == k {
      assert IsRegistered(ss, k, x);
    }
  }

  lemma RouteAdded(routes: map<nat, nat>, pool: set<nat>, ss: seq<Session>, i: nat, s: Session, ip: nat)
    requires PoolExact(pool, ss) && RoutesSound(routes, ss) && i < |ss|
    requires Held(ss[i]) == Some(ip) && Handle(ss[i]) == None && s.phase == Registered(ip)
    ensures RoutesSound(routes[ip := i], ss[i := s])
  {
    var routes', ss' := routes[ip := i], ss[i := s];
    forall k: nat, x: nat | IsRegistered(ss', k, x) && x in routes' ensures routes'[x] == k {
      if k != i {
        assert IsRegistered(ss, k, x);
        assert Held(ss[k]) == Some(x);
      }
    }
  }

  lemma RouteDropped(routes: map<nat, nat>, ss: seq<Session>, i: nat, s: Session, ip: nat)
    requires RoutesSound(routes, ss) && i < |ss| && Handle(ss[i]) == Some(ip) && Handle(s) == None
    ensures RoutesSound(routes - {ip}, ss[i := s])
  {
    var routes', ss' := routes - {ip}, ss[i := s];
    forall k: nat, x: nat | IsRegistered(ss', k, x) && x in routes' ensures routes'[x] == k {
      assert IsRegistered(ss, k, x);
    }
  }

  lemma RoutesStaySound(w: World, a: Action)
    requires PoolExact(w.pool, w.sessions) && RoutesSound(w.routes, w.sessions)
    ensures RoutesSound(Apply(w, a).routes, Apply(w, a).sessions)
  {
    if a.i < |w.sessions| {
      RouteDelta(w, a);
      var w' := Apply(w, a);
      var s, s' := w.sessions[a.i], w'.sessions[a.i];
      if Handle(s') == Handle(s) {
        RoutesKept(w.routes, w.sessions, a.i, s');
      } else if Handle(s') == None {
        RouteDropped(w.routes, w.sessions, a.i, s', Handle(s).value);
      } else {
        RouteAdded(w.routes, w.pool, w.sessions, a.i, s', Handle(s').value);
      }
    }
  }

  /** Between two worlds session i keeps its handle, registers its address, or drops its handle. */
  ghost predicate RouteStep(w: World, w': World, i: nat)
    requires i < |w.sessions|
  {
    && |w'.sessions| == |w.sessions|
    && var s, s' := w.sessions[i], w'.sessions[i];
       && w'.sessions == w.sessions[i := s']
       && (|| (w'.routes == w.routes && Handle(s') == Handle(s) && (s'.phase.Registered? ==> s.phase == s'.phase))
           || (Handle(s) == None && s'.phase.Registered? && Held(s) == Some(s'.phase.ip)
               && w'.routes == w.routes[s'.phase.ip := i])
           || (Handle(s).Some? && Handle(s') == None && w'.routes == w.routes - {Handle(s).value}))
  }

  lemma OpeningRoutes(w: World, a: Action)
    requires a.i < |w.sessions| && OpensSession(a)
    ensures RouteStep(w, Apply(w, a), a.i)
  {
  }

  lemma ClosingRoutes(w: World, a: Action)
    requires a.i < |w.sessions| && !OpensSession(a)
    ensures RouteStep(w, Apply(w, a), a.i)
  {
  }

  /** Every action keeps the handle, registers the held address, or drops the handle. */
  lemma RouteDelta(w: World, a: Action)
    requires a.i < |w.sessions|
    ensures RouteStep(w, Apply(w, a), a.i)
  {
    if OpensSession(a) {
      OpeningRoutes(w, a);
    } else {
      ClosingRoutes(w, a);
    }
  }

  // ----- Every run -----

  lemma ApplyKeepsInv(w: World, a: Action)
    requires Inv(w)
    ensures Inv(Apply(w, a)) && |Apply(w, a).sessions| == |w.sessions|
  {
    CountersStayExact(w, a);
    PoolStaysExact(w, a);
    RoutesStaySound(w, a);
    NobodyIsAdded(w, a);
  }

  lemma NobodyIsAdded(w: World, a: Action)
    ensures |Apply(w, a).sessions| == |w.sessions|
  {
  }

  lemma {:induction false} ExecKeepsInv(w: World, actions: seq<Action>)
    requires Inv(w)
    ensures Inv(Exec(w, actions))
    decreases |actions|
  {
    if actions == [] {
    } else {
      ApplyKeepsInv(w, actions[0]);
      ExecKeepsInv(Apply(w, actions[0]), actions[1..]);
    }
  }

  lemma InitIsGood(n: nat)
    ensures Inv(Init(n))
  {
    SumZero(Init(n).sessions, ConnGuards);
    SumZero(Init(n).sessions, SessionGuards);
  }

  /** In every interleaving of any number of sessions of every kind, with every early exit: the
      pool holds exactly the addresses between allocate and release, each held by one session, at
      most 253 in all; every route leads to a session whose handle is alive and never past the
      registered holder of the address; and the counters count the guards. */
  lemma EveryRunIsSound(n: nat, actions: seq<Action>)
    ensures var w := Exec(Init(n), actions);
      && PoolExact(w.pool, w.sessions) && |w.pool| <= 253
      && (forall ip :: ip in w.pool ==> 2 <= ip <= 254)
      && RoutesSound(w.routes, w.sessions)
      && CountersExact(w)
  {
    var w := Exec(Init(n), actions);
    InitIsGood(n);
    ExecKeepsInv(Init(n), actions);
    PoolIsSmall(w.pool, w.sessions);
  }

  lemma PoolIsSmall(pool: set<nat>, ss: seq<Session>)
    requires PoolExact(pool, ss)
    ensures |pool| <= 253 && forall ip :: ip in pool ==> 2 <= ip <= 254
  {
    IpPool.PoolCapacity(pool);
  }

  lemma EndedHoldNothing(ss: seq<Session>)
    requires forall s :: s in ss ==> s.phase.Ended? || s.phase.NotStarted?
    ensures forall ip: nat :: !SomeoneHolds(ss, ip)
    ensures forall k :: 0 <= k < |ss| ==> Handle(ss[k]) == None
  {
    forall k | 0 <= k < |ss| ensures Held(ss[k]) == None && Handle(ss[k]) == None {
      assert ss[k] in ss;
    }
  }

  /** In every reachable world an authenticated session that asks for an address gets the lowest
      free one, and is turned away exactly when all 253 are held. */
  lemma AllocationIff(n: nat, actions: seq<Action>, i: nat)
    ensures var w := Exec(Init(n), actions);
      i < |w.sessions| && w.sessions[i].phase.Authenticated? ==>
        var s := Apply(w, AllocateIp(i)).sessions[i];
        && (s.phase.Allocated? <==> |w.pool| < 253)
        && (s.phase.Allocated? ==> forall h :: IpPool.FIRST_HOST <= h < s.phase.ip ==> SomeoneHolds(w.sessions, h))
  {
    EveryRunIsSound(n, actions);
    var w := Exec(Init(n), actions);
    if i < |w.sessions| && w.sessions[i].phase.Authenticated? {
      AllocationFrom(w, i);
    }
  }

  lemma AllocationFrom(w: World, i: nat)
    requires PoolExact(w.pool, w.sessions) && i < |w.sessions| && w.sessions[i].phase.Authenticated?
    ensures var s := Apply(w, AllocateIp(i)).sessions[i];
      && (s.phase.Allocated? <==> |w.pool| < 253)
      && (s.phase.Allocated? ==> forall h :: IpPool.FIRST_HOST <= h < s.phase.ip ==> SomeoneHolds(w.sessions, h))
  {
    IpPool.PoolCapacity(w.pool);
  }

  /** When all sessions that were started have ended, nothing is left behind. */
  lemma NothingLeaks(n: nat, actions: seq<Action>)
    ensures var w := Exec(Init(n), actions);
      (forall s :: s in w.sessions ==> s.phase.Ended? || s.phase.NotStarted?) ==>
        w.pool == {} && w.routes == map[] && w.activeConnections == 0 && w.activeSessions == 0
  {
    EveryRunIsSound(n, actions);
    var w := Exec(Init(n), actions);
    if forall s :: s in w.sessions ==> s.phase.Ended? || s.phase.NotStarted? {
      EndedHoldNothing(w.sessions);
      assert w.pool == {};
      assert w.routes.Keys == {};
      forall s | s in w.sessions ensures !s.connGuard && !s.sessionGuard {
        var i :| 0 <= i < |w.sessions| && w.sessions[i] == s;
        assert GuardsMatchPhase(w.sessions[i]);
      }
      SumZero(w.sessions, ConnGuards);
      SumZero(w.sessions, SessionGuards);
    }
  }

  // ----- Every session can end -----

  lemma ExecCons(w: World, a: Action, rest: seq<Action>)
    ensures Exec(w, [a] + rest) == Exec(Apply(w, a), rest)
  {
    assert ([a] + rest)[1..] == rest;
  }

  lemma {:induction false} ExecConcat(w: World, a: seq<Action>, b: seq<Action>)
    ensures Exec(w, a + b) == Exec(Exec(w, a), b)
    decreases |a|
  {
    if a == [] {
      assert a + b == b;
    } else {
      assert (a + b)[1..] == a[1..] + b;
      ExecConcat(Apply(w, a[0]), a[1..], b);
    }
  }

  /** What a started session does next on its shortest way out. */
  function WayOut(s: Session, i: nat): Action {
    match s.phase
    case NotStarted => DropGuard(i)
    case Connected => Quit(i)
    case Authenticated => AllocateIp(i)
    case Allocated(_) => if EarlyGuards(s.kind) then Register(i) else ConfigFailed(i)
    case Configured(_) => TakeGuard(i)
    case Counted(_) => TakeGuard(i)
    case Guarded(_) => if s.kind.Reality? then Register(i) else Release(i)
    case Registered(_) => Release(i)
    case Released(_) => DropHandle(i)
    case Unwinding => DropGuard(i)
    case Ended => DropGuard(i)
  }

  function StepsLeft(s: Session): nat {
    match s.phase
    case NotStarted => 0
    case Connected => 4
    case Authenticated => 7
    case Allocated(_) => 6
    case Configured(_) => 8
    case Counted(_) => 7
    case Guarded(_) => 6
    case Registered(_) => 5
    case Released(_) => 4
    case Unwinding => 1 + ConnGuards(s) + SessionGuards(s)
    case Ended => 0
  }

  /** The address under which the session is, or on its way out will be, registered. */
  function RouteAddress(w: World, s: Session): Option<nat> {
    match s.phase
    case Authenticated => if EarlyGuards(s.kind) then IpPool.Allocate(w.pool) else None
    case Allocated(ip) => if EarlyGuards(s.kind) then Some(ip) else None
    case Configured(ip) => if s.kind.Reality? then Some(ip) else None
    case Counted(ip) => if s.kind.Reality? then Some(ip) else None
    case Guarded(ip) => if s.kind.Reality? then Some(ip) else None
    case Registered(ip) => Some(ip)
    case Released(ip) => Some(ip)
    case _ => None
  }

  function Just(ip: Option<nat>): set<nat> { if ip.Some? then {ip.value} else {} }

  /** The world without session i: its own address, route and guards are gone, and nothing else. */
  function After(w: World, i: nat): World
    requires i < |w.sessions|
  {
    var s := w.sessions[i];
    World(w.pool - Just(Held(s)), w.routes - Just(RouteAddress(w, s)),
          w.sessions[i := Session(s.kind, Ended, false, false)],
          w.activeConnections - ConnGuards(s), w.activeSessions - SessionGuards(s))
  }

  predicate Leads(w: World, w': World, i: nat)
    requires i < |w.sessions|
  {
    && |w'.sessions| == |w.sessions| && GuardsMatchPhase(w'.sessions[i])
    && !w'.sessions[i].phase.NotStarted? && StepsLeft(w'.sessions[i]) < StepsLeft(w.sessions[i])
    && After(w', i) == After(w, i)
  }

  lemma AllocateLeads(w: World, i: nat)
    requires i < |w.sessions| && GuardsMatchPhase(w.sessions[i]) && w.sessions[i].phase.Authenticated?
    ensures Leads(w, Apply(w, AllocateIp(i)), i)
  {
  }

  lemma UnwindLeads(w: World, i: nat)
    requires i < |w.sessions| && GuardsMatchPhase(w.sessions[i])
    requires w.sessions[i].phase.Registered? || w.sessions[i].phase.Released? || w.sessions[i].phase.Unwinding?
    ensures Leads(w, Apply(w, WayOut(w.sessions[i], i)), i)
  {
  }

  lemma WayOutLeads(w: World, i: nat)
    requires i < |w.sessions| && GuardsMatchPhase(w.sessions[i])
    requires !w.sessions[i].phase.NotStarted? && !w.sessions[i].phase.Ended?
    ensures Leads(w, Apply(w, WayOut(w.sessions[i], i)), i)
  {
    var s := w.sessions[i];
    if s.phase.Authenticated? {
      AllocateLeads(w, i);
    } else if s.phase.Registered? || s.phase.Released? || s.phase.Unwinding? {
      UnwindLeads(w, i);
    }
  }

  /** Every started session can end, by at most eight steps of its own whatever its phase, and when
      it has, exactly its address, its route and its guards are gone. */
  lemma {:induction false} SessionEnds(w: World, i: nat) returns (actions: seq<Action>)
    requires i < |w.sessions| && GuardsMatchPhase(w.sessions[i]) && !w.sessions[i].phase.NotStarted?
    ensures |actions| <= StepsLeft(w.sessions[i]) <= 8 && forall a :: a in actions ==> a.i == i
    ensures Exec(w, actions) == After(w, i)
    decreases StepsLeft(w.sessions[i])
  {
    var s := w.sessions[i];
    if s.phase.Ended? {
      actions := [];
      assert w.sessions[i := s] == w.sessions;
    } else {
      WayOutLeads(w, i);
      var rest := SessionEnds(Apply(w, WayOut(s, i)), i);
      actions := [WayOut(s, i)] + rest;
      ExecCons(w, WayOut(s, i), rest);
    }
  }

  predicate Gone(s: Session) { s.phase.Ended? || s.phase.NotStarted? }

  lemma {:induction false} AllEnd(w: World, n: nat) returns (actions: seq<Action>)
    requires Inv(w) && n <= |w.sessions|
    ensures var e := Exec(w, actions); |e.sessions| == |w.sessions| && forall i :: 0 <= i < n ==> Gone(e.sessions[i])
    decreases n
  {
    if n == 0 {
      actions := [];
    } else {
      var first := AllEnd(w, n - 1);
      var mid := Exec(w, first);
      ExecKeepsInv(w, first);
      actions := first;
      if !Gone(mid.sessions[n - 1]) {
        var last := SessionEnds(mid, n - 1);
        ExecConcat(w, first, last);
        actions := first + last;
      }
    }
  }

  /** The server can always return to rest: every run has a continuation after which no session is
      left, and then pool and router are empty and both counters zero. */
  lemma EverythingEnds(n: nat, actions: seq<Action>) returns (more: seq<Action>)
    ensures var e := Exec(Init(n), actions + more);
      && (forall s :: s in e.sessions ==> Gone(s))
      && e.pool == {} && e.routes == map[] && e.activeConnections == 0 && e.activeSessions == 0
  {
    var w := Exec(Init(n), actions);
    InitIsGood(n);
    ExecKeepsInv(Init(n), actions);
    more := AllEnd(w, |w.sessions|);
    ExecConcat(Init(n), actions, more);
    NothingLeaks(n, actions + more);
  }

  // ----- When routing is complete -----

  /** Every registered session is reachable: its address leads to its own queue. */
  ghost predicate Complete(w: World) {
    forall i: nat, ip: nat :: IsRegistered(w.sessions, i, ip) ==> ip in w.routes && w.routes[ip] == i
  }

  /** The action drops a handle whose address another session has registered meanwhile. */
  ghost predicate Shadows(w: World, a: Action) {
    && a.DropHandle? && a.i < |w.sessions| && w.sessions[a.i].phase.Released?
    && exists j: nat :: IsRegistered(w.sessions, j, w.sessions[a.i].phase.ip)
  }

  ghost predicate CompleteThroughout(w: World, actions: seq<Action>)
    decreases |actions|
  {
    Complete(w) && (actions == [] || CompleteThroughout(Apply(w, actions[0]), actions[1..]))
  }

  ghost predicate NeverShadows(w: World, actions: seq<Action>)
    decreases |actions|
  {
    actions == [] || (!Shadows(w, actions[0]) && NeverShadows(Apply(w, actions[0]), actions[1..]))
  }

  lemma ShadowBreaks(w: World, a: Action)
    requires Shadows(w, a)
    ensures !Complete(Apply(w, a))
  {
    var ip := w.sessions[a.i].phase.ip;
    var j: nat :| IsRegistered(w.sessions, j, ip);
    assert IsRegistered(Apply(w, a).sessions, j, ip);
  }

  lemma KeptIsComplete(w: World, w': World, i: nat)
    requires Complete(w) && i < |w.sessions| == |w'.sessions| && w'.routes == w.routes
    requires w'.sessions == w.sessions[i := w'.sessions[i]]
    requires w'.sessions[i].phase.Registered? ==> w.sessions[i].phase == w'.sessions[i].phase
    ensures Complete(w')
  {
    forall k: nat, ip: nat | IsRegistered(w'.sessions, k, ip) ensures ip in w'.routes && w'.routes[ip] == k {
      assert IsRegistered(w.sessions, k, ip);
    }
  }

  lemma AddedIsComplete(w: World, w': World, i: nat, ip: nat)
    requires Complete(w) && PoolExact(w.pool, w.sessions) && i < |w.sessions| == |w'.sessions|
    requires w'.sessions == w.sessions[i := w'.sessions[i]] && w'.sessions[i].phase == Registered(ip)
    requires Held(w.sessions[i]) == Some(ip) && w'.routes == w.routes[ip := i]
    ensures Complete(w')
  {
    forall k: nat, x: nat | IsRegistered(w'.sessions, k, x) ensures x in w'.routes && w'.routes[x] == k {
      if k != i {
        assert IsRegistered(w.sessions, k, x);
        assert Held(w.sessions[k]) == Some(x);
      }
    }
  }

  lemma DroppedIsComplete(w: World, w': World, i: nat, ip: nat)
    requires Complete(w) && i < |w.sessions| == |w'.sessions|
    requires w'.sessions == w.sessions[i := w'.sessions[i]] && Handle(w'.sessions[i]) == None
    requires w'.routes == w.routes - {ip} && forall j: nat :: j != i ==> !IsRegistered(w.sessions, j, ip)
    ensures Complete(w')
  {
    forall k: nat, x: nat | IsRegistered(w'.sessions, k, x) ensures x in w'.routes && w'.routes[x] == k {
      assert IsRegistered(w.sessions, k, x);
    }
  }

  lemma OtherwiseComplete(w: World, a: Action)
    requires Inv(w) && Complete(w) && !Shadows(w, a)
    ensures Complete(Apply(w, a))
  {
    if a.i < |w.sessions| {
      RouteDelta(w, a);
      var w', i := Apply(w, a), a.i;
      var s, s' := w.sessions[i], w'.sessions[i];
      if Handle(s') == Handle(s) {
        KeptIsComplete(w, w', i);
      } else if s'.phase.Registered? {
        AddedIsComplete(w, w', i, s'.phase.ip);
      } else {
        DropIsUnshadowed(w, a);
        DroppedIsComplete(w, w', i, Handle(s).value);
      }
    }
  }

  /** Only a drop takes a handle away. */
  lemma DropIsUnshadowed(w: World, a: Action)
    requires a.i < |w.sessions| && Handle(w.sessions[a.i]).Some? && Handle(Apply(w, a).sessions[a.i]) == None
    requires !Shadows(w, a)
    ensures forall j: nat :: !IsRegistered(w.sessions, j, Handle(w.sessions[a.i]).value)
  {
    assert a.DropHandle? && w.sessions[a.i].phase.Released?;
  }

  /** Exactly when routing is complete in every state of a run: when no handle is dropped while
      another session is registered under its address. */
  lemma {:induction false} CompleteIff(w: World, actions: seq<Action>)
    requires Inv(w) && Complete(w)
    ensures CompleteThroughout(w, actions) <==> NeverShadows(w, actions)
    decreases |actions|
  {
    if actions == [] {
    } else {
      var a := actions[0];
      if Shadows(w, a) {
        ShadowBreaks(w, a);
      } else {
        OtherwiseComplete(w, a);
        ApplyKeepsInv(w, a);
        CompleteIff(Apply(w, a), actions[1..]);
      }
    }
  }

  /** Release and handle drop as one step: once a session has given its address back, the next
      action drops its handle. */
  ghost predicate PromptTeardown(w: World, actions: seq<Action>)
    decreases |actions|
  {
    actions == [] ||
    ((forall i :: 0 <= i < |w.sessions| && w.sessions[i].phase.Released? ==> actions[0] == DropHandle(i))
     && PromptTeardown(Apply(w, actions[0]), actions[1..]))
  }

  ghost predicate ReleasedAreFree(w: World) {
    forall i :: 0 <= i < |w.sessions| && w.sessions[i].phase.Released? ==> w.sessions[i].phase.ip !in w.pool
  }

  lemma FreeIsUnshadowed(w: World, a: Action)
    requires Inv(w) && ReleasedAreFree(w)
    ensures !Shadows(w, a)
  {
    forall j: nat, ip: nat | IsRegistered(w.sessions, j, ip) ensures ip in w.pool {
      assert Held(w.sessions[j]) == Some(ip);
    }
  }

  lemma PromptStaysFree(w: World, a: Action)
    requires Inv(w) && ReleasedAreFree(w)
    requires forall i :: 0 <= i < |w.sessions| && w.sessions[i].phase.Released? ==> a == DropHandle(i)
    ensures ReleasedAreFree(Apply(w, a))
  {
    var w' := Apply(w, a);
    if a.i < |w.sessions| {
      ReleasedDelta(w, a);
      assert forall i :: 0 <= i < |w.sessions| && i != a.i ==>
        w'.sessions[i] == w.sessions[i] && !w.sessions[i].phase.Released?;
    }
  }

  /** Only `Release` leaves its session released, and it frees the address; a drop ends that. */
  lemma ReleasedDelta(w: World, a: Action)
    requires a.i < |w.sessions|
    ensures var w' := Apply(w, a); var s, s' := w.sessions[a.i], w'.sessions[a.i];
      && w'.sessions == w.sessions[a.i := s']
      && (s'.phase.Released? && !s.phase.Released? ==> s'.phase.ip !in w'.pool)
      && (s.phase.Released? && s'.phase.Released? ==> !a.DropHandle?)
  {
  }

  lemma {:induction false} PromptNeverShadows(w: World, actions: seq<Action>)
    requires Inv(w) && ReleasedAreFree(w) && PromptTeardown(w, actions)
    ensures NeverShadows(w, actions)
    decreases |actions|
  {
    if actions == [] {
    } else {
      FreeIsUnshadowed(w, actions[0]);
      PromptStaysFree(w, actions[0]);
      ApplyKeepsInv(w, actions[0]);
      PromptNeverShadows(Apply(w, actions[0]), actions[1..]);
    }
  }

  /** With release and drop as one step, in every run: routing is complete throughout, and whenever
      no teardown is half done the router's keys are exactly the registered addresses, each leading
      to its holder's own queue. */
  lemma PromptRoutingIsExact(n: nat, actions: seq<Action>)
    requires PromptTeardown(Init(n), actions)
    ensures CompleteThroughout(Init(n), actions)
    ensures var w := Exec(Init(n), actions);
      (forall s :: s in w.sessions ==> !s.phase.Released?) ==>
        forall ip: nat, i: nat :: (ip in w.routes && w.routes[ip] == i) <==> IsRegistered(w.sessions, i, ip)
  {
    InitIsGood(n);
    PromptNeverShadows(Init(n), actions);
    CompleteIff(Init(n), actions);
    CompleteAtEnd(Init(n), actions);
    EveryRunIsSound(n, actions);
    var w := Exec(Init(n), actions);
    if forall s :: s in w.sessions ==> !s.phase.Released? {
      forall ip: nat, i: nat | ip in w.routes && w.routes[ip] == i ensures IsRegistered(w.sessions, i, ip) {
        assert w.sessions[i] in w.sessions;
      }
    }
  }

  lemma {:induction false} CompleteAtEnd(w: World, actions: seq<Action>)
    requires CompleteThroughout(w, actions)
    ensures Complete(Exec(w, actions))
    decreases |actions|
  {
    if actions == [] {
    } else {
      CompleteAtEnd(Apply(w, actions[0]), actions[1..]);
    }
  }

  // ----- Packets for the clients -----

  /** What happens to the server: a step of a session's handler, or a packet read from TUN. */
  datatype Event = Handler(a: Action) | FromTun(dst: nat)

  /** A packet for `dst`, the world it met, and the session whose queue it was handed to, if any. */
  datatype Delivery = Delivery(dst: nat, to: Option<nat>, at: World)

  /** `route`: the destination's queue, or none. */
  function Receiver(w: World, dst: nat): Option<nat> {
    if dst in w.routes then Some(w.routes[dst]) else None
  }

  function Deliveries(w: World, events: seq<Event>): seq<Delivery>
    decreases |events|
  {
    if events == [] then []
    else
      match events[0]
      case Handler(a) => Deliveries(Apply(w, a), events[1..])
      case FromTun(dst) => [Delivery(dst, Receiver(w, dst), w)] + Deliveries(w, events[1..])
  }

  /** The packet goes only to a session whose handle is alive under its destination, and to no
      other if one is registered under it. */
  ghost predicate GoesToHandle(d: Delivery) {
    d.to.Some? ==>
      && d.to.value < |d.at.sessions| && Handle(d.at.sessions[d.to.value]) == Some(d.dst)
      && forall i: nat :: IsRegistered(d.at.sessions, i, d.dst) ==> i == d.to.value
  }

  /** The packet goes to the registered holder of its destination, and nowhere if there is none. */
  ghost predicate GoesToHolder(d: Delivery) {
    forall i: nat :: d.to == Some(i) <==> IsRegistered(d.at.sessions, i, d.dst)
  }

  lemma {:induction false} DeliveriesFrom(w: World, events: seq<Event>)
    requires Inv(w)
    ensures forall d :: d in Deliveries(w, events) ==> GoesToHandle(d)
    decreases |events|
  {
    if events == [] {
    } else {
      match events[0]
      case Handler(a) =>
        ApplyKeepsInv(w, a);
        DeliveriesFrom(Apply(w, a), events[1..]);
      case FromTun(dst) =>
        assert GoesToHandle(Delivery(dst, Receiver(w, dst), w));
        DeliveriesFrom(w, events[1..]);
    }
  }

  /** In every run, with packets arriving at any time: a packet is handed only to the queue of a
      session whose handle is alive under its destination, never past the registered holder. */
  lemma EveryDeliveryIsSound(n: nat, events: seq<Event>)
    ensures forall d :: d in Deliveries(Init(n), events) ==> GoesToHandle(d)
  {
    InitIsGood(n);
    DeliveriesFrom(Init(n), events);
  }

  /** Release and handle drop as one step, and no packet in between. */
  ghost predicate PromptEvents(w: World, events: seq<Event>)
    decreases |events|
  {
    events == [] ||
    ((forall i :: 0 <= i < |w.sessions| && w.sessions[i].phase.Released? ==> events[0] == Handler(DropHandle(i)))
     && PromptEvents(if events[0].Handler? then Apply(w, events[0].a) else w, events[1..]))
  }

  lemma DeliveredToHolder(w: World, dst: nat)
    requires Inv(w) && Complete(w) && forall i :: 0 <= i < |w.sessions| ==> !w.sessions[i].phase.Released?
    ensures GoesToHolder(Delivery(dst, Receiver(w, dst), w))
  {
  }

  lemma {:induction false} PromptDeliveriesFrom(w: World, events: seq<Event>)
    requires Inv(w) && Complete(w) && ReleasedAreFree(w) && PromptEvents(w, events)
    ensures forall d :: d in Deliveries(w, events) ==> GoesToHolder(d)
    decreases |events|
  {
    if events == [] {
    } else {
      match events[0]
      case Handler(a) =>
        FreeIsUnshadowed(w, a);
        PromptStaysFree(w, a);
        OtherwiseComplete(w, a);
        ApplyKeepsInv(w, a);
        PromptDeliveriesFrom(Apply(w, a), events[1..]);
      case FromTun(dst) =>
        DeliveredToHolder(w, dst);
        PromptDeliveriesFrom(w, events[1..]);
    }
  }

  /** With release and drop as one step, every packet read from TUN is handed to the queue of the
      session registered under its destination, and to none exactly if there is no such session. */
  lemma PromptDeliveryIsExact(n: nat, events: seq<Event>)
    requires PromptEvents(Init(n), events)
    ensures forall d :: d in Deliveries(Init(n), events) ==> GoesToHolder(d)
  {
    InitIsGood(n);
    PromptDeliveriesFrom(Init(n), events);
  }

  // ----- Sessions open -----

  /** A session's way from start to its tunnel. */
  function Opening(i: nat, kind: Kind): seq<Action> {
    match kind
    case Quic => [Start(i, Quic), Authenticate(i), AllocateIp(i), Register(i)]
    case H3 => [Start(i, H3), Authenticate(i), AllocateIp(i), Register(i)]
    case Reality =>
      [Start(i, Reality), Authenticate(i), AllocateIp(i), ConfigSent(i), TakeGuard(i), TakeGuard(i), Register(i)]
    case WebSocket =>
      [Start(i, WebSocket), Authenticate(i), AllocateIp(i), ConfigSent(i), TakeGuard(i), TakeGuard(i)]
  }

  /** The world after that, with the address it was given. */
  function Opened(w: World, i: nat, kind: Kind, ip: nat): World
    requires i < |w.sessions|
  {
    World(w.pool + {ip}, if kind.WebSocket? then w.routes else w.routes[ip := i],
          w.sessions[i := Session(kind, if kind.WebSocket? then Guarded(ip) else Registered(ip), true, true)],
          w.activeConnections + 1, w.activeSessions + 1)
  }

  /** Session i of a world replaced, and the counters raised. */
  function Moved(w: World, i: nat, s: Session, connections: nat, sessions: nat): World
    requires i < |w.sessions|
  {
    w.(sessions := w.sessions[i := s], activeConnections := w.activeConnections + connections,
       activeSessions := w.activeSessions + sessions)
  }

  /** A QUIC or h3 client counts as a connection from the start and as a session once it is
      authenticated; the other kinds count only after they have been sent their config. */
  lemma OpensToAddress(w: World, i: nat, kind: Kind, ip: nat, rest: seq<Action>)
    requires i < |w.sessions| && w.sessions[i].phase.NotStarted? && IpPool.Allocate(w.pool) == Some(ip)
    ensures var early := if kind.Quic? || kind.H3? then 1 else 0;
      Exec(w, [Start(i, kind), Authenticate(i), AllocateIp(i)] + rest)
        == Exec(Moved(w, i, Session(kind, Allocated(ip), early == 1, early == 1), early, early)
                .(pool := w.pool + {ip}), rest)
  {
    var early := if kind.Quic? || kind.H3? then 1 else 0;
    var w1 := Moved(w, i, Session(kind, Connected, early == 1, false), early, 0);
    var w2 := Moved(w, i, Session(kind, Authenticated, early == 1, early == 1), early, early);
    var w3 := Moved(w, i, Session(kind, Allocated(ip), early == 1, early == 1), early, early).(pool := w.pool + {ip});
    assert Apply(w, Start(i, kind)) == w1 && Apply(w1, Authenticate(i)) == w2;
    assert Apply(w2, AllocateIp(i)) == w3;
    assert [Start(i, kind), Authenticate(i), AllocateIp(i)] + rest
        == [Start(i, kind)] + ([Authenticate(i)] + ([AllocateIp(i)] + rest));
    ExecCons(w, Start(i, kind), [Authenticate(i)] + ([AllocateIp(i)] + rest));
    ExecCons(w1, Authenticate(i), [AllocateIp(i)] + rest);
    ExecCons(w2, AllocateIp(i), rest);
  }

  lemma OpensToGuarded(w: World, i: nat, kind: Kind, ip: nat, rest: seq<Action>)
    requires i < |w.sessions| && (kind.Reality? || kind.WebSocket?)
    requires w.sessions[i] == Session(kind, Allocated(ip), false, false)
    ensures Exec(w, [ConfigSent(i), TakeGuard(i), TakeGuard(i)] + rest)
      == Exec(Moved(w, i, Session(kind, Guarded(ip), true, true), 1, 1), rest)
  {
    var w1 := Moved(w, i, Session(kind, Configured(ip), false, false), 0, 0);
    var w2 := Moved(w, i, Session(kind, Counted(ip), true, false), 1, 0);
    var w3 := Moved(w, i, Session(kind, Guarded(ip), true, true), 1, 1);
    assert Apply(w, ConfigSent(i)) == w1 && Apply(w1, TakeGuard(i)) == w2 && Apply(w2, TakeGuard(i)) == w3;
    assert [ConfigSent(i), TakeGuard(i), TakeGuard(i)] + rest
        == [ConfigSent(i)] + ([TakeGuard(i)] + ([TakeGuard(i)] + rest));
    ExecCons(w, ConfigSent(i), [TakeGuard(i)] + ([TakeGuard(i)] + rest));
    ExecCons(w1, TakeGuard(i), [TakeGuard(i)] + rest);
    ExecCons(w2, TakeGuard(i), rest);
  }

  lemma OpensToRegistered(w: World, i: nat, kind: Kind, ip: nat)
    requires i < |w.sessions| && !kind.WebSocket?
    requires w.sessions[i] == Session(kind, if kind.Reality? then Guarded(ip) else Allocated(ip), true, true)
    ensures Exec(w, [Register(i)])
      == Moved(w, i, Session(kind, Registered(ip), true, true), 0, 0).(routes := w.routes[ip := i])
  {
    assert Apply(w, Register(i))
        == Moved(w, i, Session(kind, Registered(ip), true, true), 0, 0).(routes := w.routes[ip := i]);
    assert [Register(i)] == [Register(i)] + [];
    ExecCons(w, Register(i), []);
  }

  /** Every kind of session opens while an address is free: QUIC, h3 and Reality sessions end up
      registered under the lowest free address, WebSocket sessions hold it without a route, and
      each counts as one connection and one session. */
  lemma SessionOpens(w: World, i: nat, kind: Kind, ip: nat)
    requires i < |w.sessions| && w.sessions[i].phase.NotStarted? && IpPool.Allocate(w.pool) == Some(ip)
    ensures Exec(w, Opening(i, kind)) == Opened(w, i, kind, ip)
  {
    if kind.Quic? || kind.H3? {
      OpensEarly(w, i, kind, ip);
    } else {
      OpensLate(w, i, kind, ip);
    }
  }

  lemma OpensEarly(w: World, i: nat, kind: Kind, ip: nat)
    requires i < |w.sessions| && w.sessions[i].phase.NotStarted? && IpPool.Allocate(w.pool) == Some(ip)
    requires kind.Quic? || kind.H3?
    ensures Exec(w, Opening(i, kind)) == Opened(w, i, kind, ip)
  {
    var w3 := Moved(w, i, Session(kind, Allocated(ip), true, true), 1, 1).(pool := w.pool + {ip});
    assert Opening(i, kind) == [Start(i, kind), Authenticate(i), AllocateIp(i)] + [Register(i)];
    OpensToAddress(w, i, kind, ip, [Register(i)]);
    OpensToRegistered(w3, i, kind, ip);
  }

  lemma OpensLate(w: World, i: nat, kind: Kind, ip: nat)
    requires i < |w.sessions| && w.sessions[i].phase.NotStarted? && IpPool.Allocate(w.pool) == Some(ip)
    requires kind.Reality? || kind.WebSocket?
    ensures Exec(w, Opening(i, kind)) == Opened(w, i, kind, ip)
  {
    var guard, rest := [ConfigSent(i), TakeGuard(i), TakeGuard(i)], if kind.Reality? then [Register(i)] else [];
    var w3 := Moved(w, i, Session(kind, Allocated(ip), false, false), 0, 0).(pool := w.pool + {ip});
    assert Opening(i, kind) == [Start(i, kind), Authenticate(i), AllocateIp(i)] + (guard + rest);
    OpensToAddress(w, i, kind, ip, guard + rest);
    OpensToGuarded(w3, i, kind, ip, rest);
    if kind.Reality? {
      OpensToRegistered(Moved(w3, i, Session(kind, Guarded(ip), true, true), 1, 1), i, kind, ip);
    }
  }

  /** At the source's own grain the condition can fail: session 0 releases its address, session 1
      allocates and registers it, and then session 0's handle drops and takes the route with it.
      Session 1 is registered and unreachable. */
  lemma ShadowedRun()
    ensures var w := Exec(Init(2), Opening(0, Quic) + ([Release(0)] + (Opening(1, Quic) + [DropHandle(0)])));
      IsRegistered(w.sessions, 1, 2) && w.routes == map[]
  {
    var tail, open := Opening(1, Quic) + [DropHandle(0)], Opened(Init(2), 0, Quic, 2);
    FirstHostIsTwo();
    SessionOpens(Init(2), 0, Quic, 2);
    ExecConcat(Init(2), Opening(0, Quic), [Release(0)] + tail);
    ExecCons(open, Release(0), tail);
    OpenIsRegistered();
    ReopenedIsShadowed(Apply(open, Release(0)));
  }

  lemma FirstHostIsTwo()
    ensures IpPool.Allocate({}) == Some(2)
  {
  }

  lemma OpenIsRegistered()
    ensures var released := Apply(Opened(Init(2), 0, Quic, 2), Release(0));
      && released.pool == {} && released.routes == map[2 := 0] && |released.sessions| == 2
      && released.sessions[0].phase == Released(2) && released.sessions[1].phase.NotStarted?
  {
  }

  lemma ReopenedIsShadowed(w: World)
    requires w.pool == {} && w.routes == map[2 := 0] && |w.sessions| == 2
    requires w.sessions[0].phase == Released(2) && w.sessions[1].phase.NotStarted?
    ensures var e := Exec(w, Opening(1, Quic) + [DropHandle(0)]); IsRegistered(e.sessions, 1, 2) && e.routes == map[]
  {
    FirstHostIsTwo();
    SessionOpens(w, 1, Quic, 2);
    ExecConcat(w, Opening(1, Quic), [DropHandle(0)]);
    DropShadows(Opened(w, 1, Quic, 2));
  }

  lemma DropShadows(w: World)
    requires w.routes == map[2 := 1] && |w.sessions| == 2
    requires w.sessions[0].phase == Released(2) && w.sessions[1].phase == Registered(2)
    ensures var e := Exec(w, [DropHandle(0)]); IsRegistered(e.sessions, 1, 2) && e.routes == map[]
  {
    assert [DropHandle(0)] == [DropHandle(0)] + [];
    ExecCons(w, DropHandle(0), []);
  }
}
