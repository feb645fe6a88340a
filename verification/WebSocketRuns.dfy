/** What the WebSocket service keeps over every sequence of events, and what only over calm ones: runs in which nobody
    calls `connect` while a reconnect is scheduled. */
module WebSocketRuns {
  import opened Sequences
  import opened WebSocketSessions
  import opened Wrappers

  /** Calls of the service, its timers, and events of sockets. A socket that is no longer the current one but was never
      detached is a stray; its events run the same handlers. */
  datatype Event =
    | Connects(constructed: bool) | Disconnects | Registers(r: Registration) | Unregisters(r: Registration)
    | TimerFires(constructed: bool) | HeartbeatFails
    | Opens | AuthSucceeds | AuthFails | Closes
    | StrayOpens | StrayAuthSucceeds | StrayAuthFails | StrayCloses

  /** The session, the number of strays, and the registrations asked for and not taken back. */
  datatype World = World(session: Session, strays: nat, wanted: set<Registration>)

  const START := World(FRESH, 0, {})

  /** A socket opens once, reports messages only while it is open, and closes once. */
  predicate Enabled(w: World, e: Event) {
    match e
    case Connects(_) | Disconnects | Registers(_) | Unregisters(_) | HeartbeatFails => true
    case TimerFires(_) => w.session.timer
    case Opens => w.session.ws.Some? && w.session.ws.value.phase == Connecting
    case AuthSucceeds | AuthFails => IsOpen(w.session)
    case Closes => w.session.ws.Some?
    case StrayOpens | StrayAuthSucceeds | StrayAuthFails | StrayCloses => w.strays > 0
  }

  function Handled(s: Session, e: Event, max: Option<nat>): Session
    requires e.Opens? ==> s.ws.Some?
  {
    match e
    case Connects(constructed) => AfterConnect(s, constructed, max)
    case Disconnects => AfterDisconnect(s)
    case Registers(r) => AfterRegister(s, r)
    case Unregisters(r) => AfterUnregister(s, r)
    case TimerFires(constructed) => AfterTimer(s, constructed, max)
    case HeartbeatFails => AfterHeartbeatTimeout(s)
    case Opens => AfterOpen(s.(ws := Some(s.ws.value.(phase := Open))))
    case StrayOpens => AfterOpen(s)
    case AuthSucceeds | StrayAuthSucceeds => AfterAuthOk(s)
    case AuthFails | StrayAuthFails => AfterAuthError(s)
    case Closes | StrayCloses => AfterClose(s, max)
  }

  function Next(w: World, e: Event, max: Option<nat>): World
    requires Enabled(w, e)
  {
    World(Handled(w.session, e, max),
          if e.TimerFires? && w.session.ws.Some? then w.strays + 1
          else if e.StrayCloses? then w.strays - 1
          else w.strays,
          if e.Registers? then w.wanted + {e.r} else if e.Unregisters? then w.wanted - {e.r} else w.wanted)
  }

  /** `v` is a world that the events lead to from `w`. */
  ghost predicate Leads(w: World, es: seq<Event>, max: Option<nat>, v: World)
    decreases |es|
  {
    if es == [] then v == w
    else Enabled(w, es[0]) && Leads(Next(w, es[0], max), es[1..], max, v)
  }

  /** As `Leads`, and nobody connects while a reconnect is scheduled. */
  ghost predicate CalmlyLeads(w: World, es: seq<Event>, max: Option<nat>, v: World)
    decreases |es|
  {
    if es == [] then v == w
    else
      && Enabled(w, es[0]) && (es[0].Connects? ==> !w.session.timer)
      && CalmlyLeads(Next(w, es[0], max), es[1..], max, v)
  }

  // ---------------------------------------------------------------- every run

  ghost predicate Tracks(registrations: seq<Registration>, pending: seq<Registration>, wanted: set<Registration>) {
    && Distinct(registrations) && Distinct(pending) && (forall r :: r in registrations ==> r !in pending)
    && Elements(registrations) + Elements(pending) == wanted
  }

  ghost predicate Tracking(w: World) {
    && Tracks(w.session.registrations, w.session.pending, w.wanted)
    && (IsConnected(w.session) ==> w.session.pending == [])
  }

  lemma {:induction false} FlushMoves(s: Session, n: nat)
    requires n <= |s.pending|
    ensures AfterFlush(s, n) == s.(ws := AfterFlush(s, n).ws, registrations := s.registrations + s.pending[..n])
    ensures s.ws.Some? ==> AfterFlush(s, n).ws.Some? && AfterFlush(s, n).ws.value.phase == s.ws.value.phase
                           && AfterFlush(s, n).ws.value.attached == s.ws.value.attached
  {
    if n > 0 {
      FlushMoves(s, n - 1);
      assert s.pending[..n] == s.pending[..n - 1] + [s.pending[n - 1]];
      var t := AfterFlush(s, n - 1);
      assert AfterSend(t, Register(s.pending[n - 1])) == t.(ws := AfterFlush(s, n).ws);
      assert s.registrations + s.pending[..n - 1] + [s.pending[n - 1]] == s.registrations + s.pending[..n];
    }
  }

  lemma AuthOkMoves(s: Session)
    ensures AfterAuthOk(s) == s.(authenticated := true, pendingAuth := None, state := Connected,
                                 ws := AfterAuthOk(s).ws, registrations := s.registrations + s.pending, pending := [])
    ensures s.ws.Some? ==> AfterAuthOk(s).ws.Some? && AfterAuthOk(s).ws.value.phase == s.ws.value.phase
                           && AfterAuthOk(s).ws.value.attached == s.ws.value.attached
  {
    var t := s.(authenticated := true, pendingAuth := None, state := Connected);
    FlushMoves(t, |t.pending|);
    assert t.pending[..|t.pending|] == t.pending;
  }

  lemma TrackMore(registrations: seq<Registration>, pending: seq<Registration>, wanted: set<Registration>,
                  r: Registration)
    requires Tracks(registrations, pending, wanted)
    ensures r in wanted <==> r in registrations || r in pending
    ensures r !in wanted ==> Tracks(registrations + [r], pending, wanted + {r})
    ensures r !in wanted ==> Tracks(registrations, pending + [r], wanted + {r})
  {
    assert r in wanted <==> r in Elements(registrations) || r in Elements(pending);
    assert Elements(registrations + [r]) == Elements(registrations) + {r};
    assert Elements(pending + [r]) == Elements(pending) + {r};
  }

  lemma TrackLess(registrations: seq<Registration>, pending: seq<Registration>, wanted: set<Registration>,
                  r: Registration)
    requires Tracks(registrations, pending, wanted)
    ensures Tracks(Without(registrations, r), Without(pending, r), wanted - {r})
  {
    WithoutDistinct(registrations, r);
    WithoutDistinct(pending, r);
    forall x | x in Without(registrations, r)
      ensures x !in Without(pending, r)
    {
      assert x in Elements(Without(registrations, r)) && x in registrations;
      assert x !in Elements(Without(pending, r));
    }
  }

  lemma TrackMoved(registrations: seq<Registration>, pending: seq<Registration>, wanted: set<Registration>)
    requires Tracks(registrations, pending, wanted)
    ensures Tracks(registrations + pending, [], wanted) && Tracks([], pending + registrations, wanted)
  {
    DistinctAppend(registrations, pending);
    DistinctAppend(pending, registrations);
    assert Elements(registrations + pending) == Elements(registrations) + Elements(pending);
    assert Elements(pending + registrations) == Elements(registrations) + Elements(pending);
  }

  lemma RegisterMoves(s: Session, r: Registration)
    ensures AfterRegister(s, r).registrations
         == if IsConnected(s) && !IsTracked(s, r) then s.registrations + [r] else s.registrations
    ensures AfterRegister(s, r).pending == if IsConnected(s) || IsTracked(s, r) then s.pending else s.pending + [r]
    ensures IsConnected(AfterRegister(s, r)) ==> IsConnected(s)
  {
  }

  lemma RegisterKeepsTracking(s: Session, wanted: set<Registration>, r: Registration)
    requires Tracks(s.registrations, s.pending, wanted)
    ensures Tracks(AfterRegister(s, r).registrations, AfterRegister(s, r).pending, wanted + {r})
  {
    RegisterMoves(s, r);
    TrackMore(s.registrations, s.pending, wanted, r);
    assert r in wanted ==> wanted + {r} == wanted;
  }

  lemma ErrorMoves(s: Session)
    ensures AfterAuthError(s).registrations == s.registrations && AfterAuthError(s).pending == s.pending
    ensures !AfterAuthError(s).authenticated
  {
  }

  lemma StepKeepsTracks(w: World, e: Event, max: Option<nat>)
    requires Tracks(w.session.registrations, w.session.pending, w.wanted) && Enabled(w, e)
    ensures Tracks(Next(w, e, max).session.registrations, Next(w, e, max).session.pending, Next(w, e, max).wanted)
  {
    var s := w.session;
    if e.Registers? {
      RegisterKeepsTracking(s, w.wanted, e.r);
    } else if e.Unregisters? {
      TrackLess(s.registrations, s.pending, w.wanted, e.r);
    } else if e.AuthSucceeds? || e.StrayAuthSucceeds? {
      AuthOkMoves(s);
      TrackMoved(s.registrations, s.pending, w.wanted);
    } else if e.Closes? || e.StrayCloses? {
      TrackMoved(s.registrations, s.pending, w.wanted);
    } else if e.AuthFails? || e.StrayAuthFails? {
      ErrorMoves(s);
    }
  }

  lemma StepKeepsPendingEmpty(w: World, e: Event, max: Option<nat>)
    requires (IsConnected(w.session) ==> w.session.pending == []) && Enabled(w, e)
    requires IsConnected(Next(w, e, max).session)
    ensures Next(w, e, max).session.pending == []
  {
    var s := w.session;
    if e.Registers? {
      RegisterMoves(s, e.r);
    } else if e.AuthSucceeds? || e.StrayAuthSucceeds? {
      AuthOkMoves(s);
    } else if e.AuthFails? || e.StrayAuthFails? {
      ErrorMoves(s);
    }
  }

  lemma StepKeepsTracking(w: World, e: Event, max: Option<nat>)
    requires Tracking(w) && Enabled(w, e)
    ensures Tracking(Next(w, e, max))
  {
    StepKeepsTracks(w, e, max);
    if IsConnected(Next(w, e, max).session) {
      StepKeepsPendingEmpty(w, e, max);
    }
  }

  /** Whatever happens, strays and explicit disconnects included: the tracked registrations are the wanted ones, each
      once, and none is waiting while the service calls itself connected. */
  lemma {:induction false} RunsKeepTracking(w: World, es: seq<Event>, max: Option<nat>, v: World)
    requires Tracking(w) && Leads(w, es, max, v)
    ensures Tracking(v)
    decreases |es|
  {
    if es != [] {
      StepKeepsTracking(w, es[0], max);
      RunsKeepTracking(Next(w, es[0], max), es[1..], max, v);
    }
  }

  // ---------------------------------------------------------------- calm runs

  /** Every socket that can still report is the current one; a scheduled reconnect and a socket exclude each other; an
      authenticated service is in state "connected", on a socket that has been open. */
  predicate Orderly(w: World) {
    var s := w.session;
    && w.strays == 0
    && (s.timer ==> s.ws.None?)
    && (s.authenticated ==> s.state == Connected && s.ws.Some? && s.ws.value.phase != Connecting)
    && (s.ws.Some? ==> s.ws.value.attached)
  }

  lemma StepKeepsOrderly(w: World, e: Event, max: Option<nat>)
    requires Orderly(w) && Enabled(w, e) && (e.Connects? ==> !w.session.timer)
    ensures Orderly(Next(w, e, max))
  {
    if e.AuthSucceeds? {
      AuthOkMoves(w.session);
    }
  }

  lemma {:induction false} CalmRunsKeepOrderly(w: World, es: seq<Event>, max: Option<nat>, v: World)
    requires Orderly(w) && CalmlyLeads(w, es, max, v)
    ensures Orderly(v)
    decreases |es|
  {
    if es != [] {
      StepKeepsOrderly(w, es[0], max);
      CalmRunsKeepOrderly(Next(w, es[0], max), es[1..], max, v);
    }
  }

  /** Calmness is exactly what is needed: connecting is safe if and only if no reconnect is scheduled or no socket
      could be made. Otherwise the new socket lives beside the armed timer, which will forget it undetached. */
  lemma ConnectKeepsOrderlyIff(w: World, constructed: bool, max: Option<nat>)
    requires Orderly(w)
    ensures Orderly(Next(w, Connects(constructed), max)) <==> !(w.session.timer && constructed)
    ensures w.session.timer && constructed ==>
              var v := Next(w, Connects(constructed), max);
              Enabled(v, TimerFires(true)) && Next(v, TimerFires(true), max).strays == 1
  {
  }

  /** What keeps the service going: without an explicit disconnect there is always a socket or a scheduled reconnect,
      unless the attempts are used up. */
  predicate Going(w: World, max: Option<nat>) {
    var s := w.session;
    !s.intentionalClose
    && (s.ws.None? && !s.timer ==> max.Some? && s.attempts >= max.value && s.state == Disconnected)
  }

  lemma {:induction false} NeverStranded(w: World, es: seq<Event>, max: Option<nat>, v: World)
    requires Orderly(w) && Going(w, max) && CalmlyLeads(w, es, max, v) && Disconnects !in es
    ensures Going(v, max)
    decreases |es|
  {
    if es != [] {
      StepKeepsOrderly(w, es[0], max);
      if es[0].AuthSucceeds? {
        AuthOkMoves(w.session);
      }
      assert Disconnects !in es[1..] && es[0] != Disconnects;
      NeverStranded(Next(w, es[0], max), es[1..], max, v);
    }
  }

  // ---------------------------------------------------------------- what the linker knows

  /** The registrations that the messages on one socket amount to; the linker forgets them with the socket. */
  function Known(sent: seq<Message>): set<Registration> {
    if sent == [] then {}
    else
      var known := Known(sent[..|sent| - 1]);
      match sent[|sent| - 1]
      case Register(r) => known + {r}
      case Unregister(r) => known - {r}
      case Auth(_) => known
  }

  lemma KnownAfterSend(s: Session, m: Message)
    requires IsOpen(s)
    ensures AfterSend(s, m).ws.value.sent == s.ws.value.sent + [m]
    ensures m.Register? ==> Known(AfterSend(s, m).ws.value.sent) == Known(s.ws.value.sent) + {m.registration}
    ensures m.Unregister? ==> Known(AfterSend(s, m).ws.value.sent) == Known(s.ws.value.sent) - {m.registration}
    ensures m.Auth? ==> Known(AfterSend(s, m).ws.value.sent) == Known(s.ws.value.sent)
  {
    var sent := s.ws.value.sent + [m];
    assert sent[..|sent| - 1] == s.ws.value.sent;
  }

  lemma {:induction false} FlushTells(s: Session, n: nat)
    requires n <= |s.pending| && IsOpen(s)
    ensures IsOpen(AfterFlush(s, n))
    ensures Known(AfterFlush(s, n).ws.value.sent) == Known(s.ws.value.sent) + Elements(s.pending[..n])
  {
    if n > 0 {
      FlushTells(s, n - 1);
      KnownAfterSend(AfterFlush(s, n - 1), Register(s.pending[n - 1]));
      assert s.pending[..n] == s.pending[..n - 1] + [s.pending[n - 1]];
      assert Elements(s.pending[..n]) == Elements(s.pending[..n - 1]) + {s.pending[n - 1]};
    }
  }

  lemma AuthOkTells(s: Session)
    requires IsOpen(s)
    ensures IsOpen(AfterAuthOk(s))
    ensures Known(AfterAuthOk(s).ws.value.sent) == Known(s.ws.value.sent) + Elements(s.pending)
    ensures Elements(AfterAuthOk(s).registrations) == Elements(s.registrations) + Elements(s.pending)
  {
    var t := s.(authenticated := true, pendingAuth := None, state := Connected);
    FlushTells(t, |t.pending|);
    FlushMoves(t, |t.pending|);
    assert t.pending[..|t.pending|] == t.pending;
    assert Elements(s.registrations + s.pending) == Elements(s.registrations) + Elements(s.pending);
  }

  lemma AuthTellsNothing(s: Session)
    requires IsOpen(s)
    ensures IsOpen(AfterTryNext(s)) && Known(AfterTryNext(s).ws.value.sent) == Known(s.ws.value.sent)
  {
    var next := FirstUntried(Candidates(s), s.failed);
    if Names(next) {
      KnownAfterSend(s.(pendingAuth := next, state := Authenticating), Auth(next.value));
    }
  }

  /** Registrations count as registered only on a socket that has been open, and while it is open the linker knows
      them. */
  ghost predicate Delivered(s: Session) {
    && (s.ws.None? || s.ws.value.phase == Connecting ==> s.registrations == [])
    && (IsOpen(s) ==> Elements(s.registrations) <= Known(s.ws.value.sent))
  }

  /** Moreover the linker knows nothing else, and nothing at all before the service is authenticated. */
  ghost predicate Mirrored(s: Session) {
    && (IsOpen(s) ==>
          Known(s.ws.value.sent) == Elements(s.registrations) && (!s.authenticated ==> s.registrations == []))
    && (s.ws.Some? && s.ws.value.phase == Connecting ==> s.ws.value.sent == [])
  }

  lemma RegisterTells(s: Session, r: Registration)
    requires IsOpen(s)
    ensures IsOpen(AfterRegister(s, r))
    ensures Known(AfterRegister(s, r).ws.value.sent) == Known(s.ws.value.sent) + if IsConnected(s) then {r} else {}
  {
    if IsConnected(s) {
      KnownAfterSend(s, Register(r));
    } else {
      var t := if IsTracked(s, r) then s else s.(pending := s.pending + [r]);
      if !t.authenticated && t.state != Authenticating {
        KnownAfterSend(t.(pendingAuth := Some(r.agent), state := Authenticating), Auth(r.agent));
      }
    }
  }

  lemma UnregisterTells(s: Session, r: Registration)
    requires IsOpen(s)
    ensures IsOpen(AfterUnregister(s, r))
    ensures Known(AfterUnregister(s, r).ws.value.sent) == Known(s.ws.value.sent) - if IsConnected(s) then {r} else {}
    ensures Elements(AfterUnregister(s, r).registrations) == Elements(s.registrations) - {r}
  {
    var t := s.(registrations := Without(s.registrations, r), pending := Without(s.pending, r));
    KnownAfterSend(t, Unregister(r));
  }

  lemma ErrorTells(s: Session)
    requires IsOpen(s)
    ensures IsOpen(AfterAuthError(s)) && Known(AfterAuthError(s).ws.value.sent) == Known(s.ws.value.sent)
  {
    if Names(s.pendingAuth) {
      AuthTellsNothing(s.(authenticated := false, failed := s.failed + {s.pendingAuth.value}, pendingAuth := None));
    }
  }

  lemma OpenTells(s: Session)
    requires s.ws.Some? && s.ws.value.phase == Connecting
    ensures var t := AfterOpen(s.(ws := Some(s.ws.value.(phase := Open))));
            IsOpen(t) && Known(t.ws.value.sent) == Known(s.ws.value.sent) && t.registrations == s.registrations
            && t.pending == s.pending && t.authenticated == s.authenticated
  {
    AuthTellsNothing(s.(ws := Some(s.ws.value.(phase := Open)), attempts := 0, failed := {}));
  }

  lemma StepKeepsDelivered(w: World, e: Event, max: Option<nat>)
    requires Orderly(w) && Delivered(w.session) && Enabled(w, e) && !e.Disconnects?
    ensures Delivered(Next(w, e, max).session)
  {
    var s := w.session;
    match e
    case Registers(r) => RegisterDelivers(s, r);
    case Unregisters(r) =>
      if IsOpen(s) {
        UnregisterTells(s, r);
      }
    case AuthSucceeds => AuthOkTells(s);
    case AuthFails =>
      ErrorTells(s);
      ErrorMoves(s);
    case _ =>
  }

  lemma RegisterDelivers(s: Session, r: Registration)
    requires Delivered(s) && (IsConnected(s) ==> s.ws.Some? && s.ws.value.phase != Connecting)
    ensures Delivered(AfterRegister(s, r))
  {
    RegisterMoves(s, r);
    assert Elements(s.registrations + [r]) == Elements(s.registrations) + {r};
    if IsOpen(s) {
      RegisterTells(s, r);
    }
  }

  ghost predicate Delivering(w: World) {
    Tracking(w) && Orderly(w) && Delivered(w.session)
  }

  lemma StepKeepsDelivering(w: World, e: Event, max: Option<nat>)
    requires Delivering(w) && Enabled(w, e) && !e.Disconnects? && (e.Connects? ==> !w.session.timer)
    ensures Delivering(Next(w, e, max))
  {
    StepKeepsTracking(w, e, max);
    StepKeepsOrderly(w, e, max);
    StepKeepsDelivered(w, e, max);
  }

  lemma {:induction false} CalmRunsKeepDelivering(w: World, es: seq<Event>, max: Option<nat>, v: World)
    requires Delivering(w) && CalmlyLeads(w, es, max, v) && Disconnects !in es
    ensures Delivering(v)
    decreases |es|
  {
    if es != [] {
      StepKeepsDelivering(w, es[0], max);
      assert Disconnects !in es[1..];
      CalmRunsKeepDelivering(Next(w, es[0], max), es[1..], max, v);
    }
  }

  /** On a calm run without explicit disconnect, however often the connection was lost: once the service is connected
      over an open socket, every registration asked for has been sent on that very socket. */
  lemma RegistrationsReachTheLinker(es: seq<Event>, max: Option<nat>, v: World)
    requires CalmlyLeads(START, es, max, v) && Disconnects !in es
    requires IsConnected(v.session) && IsOpen(v.session)
    ensures v.wanted <= Known(v.session.ws.value.sent)
  {
    CalmRunsKeepDelivering(START, es, max, v);
  }

  // ---------------------------------------------------------------- when the linker's picture is exact

  /** Nor is the service told that authentication failed after it had succeeded. */
  predicate Quiet(w: World, e: Event) {
    && !e.Disconnects? && (e.Connects? ==> !w.session.timer) && (e.AuthFails? ==> !w.session.authenticated)
  }

  ghost predicate QuietlyLeads(w: World, es: seq<Event>, max: Option<nat>, v: World)
    decreases |es|
  {
    if es == [] then v == w
    else Enabled(w, es[0]) && Quiet(w, es[0]) && QuietlyLeads(Next(w, es[0], max), es[1..], max, v)
  }

  lemma RegisterMirrors(s: Session, r: Registration)
    requires Mirrored(s) && IsOpen(s)
    requires (s.authenticated ==> s.state == Connected) && (IsConnected(s) ==> s.pending == [])
    ensures Mirrored(AfterRegister(s, r))
  {
    RegisterMoves(s, r);
    RegisterTells(s, r);
    assert Elements(s.registrations + [r]) == Elements(s.registrations) + {r};
  }

  lemma StepKeepsMirrored(w: World, e: Event, max: Option<nat>)
    requires Delivering(w) && Mirrored(w.session) && Enabled(w, e) && Quiet(w, e)
    ensures Mirrored(Next(w, e, max).session)
  {
    var s := w.session;
    match e
    case Registers(r) =>
      if IsOpen(s) {
        RegisterMirrors(s, r);
      }
    case Unregisters(r) =>
      if IsOpen(s) {
        UnregisterTells(s, r);
      }
    case AuthSucceeds =>
      AuthOkTells(s);
      AuthOkMoves(s);
    case AuthFails =>
      ErrorTells(s);
      ErrorMoves(s);
    case Opens =>
      OpenTells(s);
    case _ =>
  }

  lemma {:induction false} QuietRunsKeepMirrored(w: World, es: seq<Event>, max: Option<nat>, v: World)
    requires Delivering(w) && Mirrored(w.session) && QuietlyLeads(w, es, max, v)
    ensures Delivering(v) && Mirrored(v.session)
    decreases |es|
  {
    if es != [] {
      StepKeepsDelivering(w, es[0], max);
      StepKeepsMirrored(w, es[0], max);
      QuietRunsKeepMirrored(Next(w, es[0], max), es[1..], max, v);
    }
  }

  /** On a quiet run the linker knows exactly the registrations that are wanted. */
  lemma LinkerMirrorsTheService(es: seq<Event>, max: Option<nat>, v: World)
    requires QuietlyLeads(START, es, max, v) && IsConnected(v.session) && IsOpen(v.session)
    ensures Known(v.session.ws.value.sent) == v.wanted
  {
    QuietRunsKeepMirrored(START, es, max, v);
  }

  // ---------------------------------------------------------------- where the guarantees end

  /** A connected service tracks a new registration in any case; it reaches the linker if and only if the socket is
      open. */
  lemma RegistrationArrivesIffOpen(s: Session, r: Registration)
    requires IsConnected(s) && s.ws.Some? && r !in Known(s.ws.value.sent)
    ensures var t := AfterRegister(s, r);
            IsConnected(t) && IsTracked(t, r) && t.ws.Some? && (r in Known(t.ws.value.sent) <==> IsOpen(s))
  {
    if IsOpen(s) {
      RegisterTells(s, r);
    }
  }

  /** It can happen to any connected service: between a missed heartbeat and the end of the closing handshake it still
      calls itself connected, and a registration made then is tracked, not pending, and never sent on this socket. */
  lemma RegistrationsMissAClosingSocket(w: World, r: Registration, max: Option<nat>) returns (v: World)
    requires Orderly(w) && Tracking(w) && IsConnected(w.session) && IsOpen(w.session)
    requires r !in w.wanted && r !in Known(w.session.ws.value.sent)
    ensures CalmlyLeads(w, [HeartbeatFails, Registers(r)], max, v)
    ensures IsConnected(v.session) && r in v.session.registrations && v.session.pending == []
    ensures v.session.ws.Some? && r !in Known(v.session.ws.value.sent)
  {
    var es := [HeartbeatFails, Registers(r)];
    var w1 := Next(w, es[0], max);
    TrackMore(w.session.registrations, w.session.pending, w.wanted, r);
    v := Next(w1, es[1], max);
    assert CalmlyLeads(w1, es[1..], max, v);
  }

  /** While the service is not connected it does not tell the linker what it stops tracking. */
  lemma UnregisterMirrorsIffConnected(s: Session, r: Registration)
    requires IsOpen(s) && Known(s.ws.value.sent) == Elements(s.registrations) && r in s.registrations
    ensures var t := AfterUnregister(s, r);
            IsOpen(t) && (Known(t.ws.value.sent) == Elements(t.registrations) <==> IsConnected(s))
  {
    UnregisterTells(s, r);
    assert r in Elements(s.registrations);
  }

  /** After an explicit disconnect and a new connection, the linker knows what was wanted if and only if nothing had
      been registered before: the detached socket cannot report its closing, so nothing was moved back to pending. */
  lemma DisconnectForgetsRegistrations(w: World, max: Option<nat>) returns (v: World)
    requires Orderly(w) && Tracking(w)
    ensures CalmlyLeads(w, [Disconnects, Connects(true), Opens, AuthSucceeds], max, v)
    ensures IsConnected(v.session) && IsOpen(v.session) && v.wanted == w.wanted
    ensures w.wanted <= Known(v.session.ws.value.sent) <==> w.session.registrations == []
  {
    var w1 := Next(w, Disconnects, max);
    var w2 := Next(w1, Connects(true), max);
    assert w2.wanted == w.wanted && w2.session.registrations == w.session.registrations;
    OpenTells(w2.session);
    var w3 := Next(w2, Opens, max);
    assert w3.wanted == w.wanted;
    AuthOkTells(w3.session);
    AuthOkMoves(w3.session);
    v := Next(w3, AuthSucceeds, max);
    assert v.wanted == w.wanted;
    FourCalmSteps(w, Disconnects, Connects(true), Opens, AuthSucceeds, max, w1, w2, w3);
    assert Known(v.session.ws.value.sent) == Elements(w.session.pending);
    if w.session.registrations != [] {
      assert w.session.registrations[0] in Elements(w.session.registrations);
    }
  }

  lemma FourCalmSteps(w: World, e1: Event, e2: Event, e3: Event, e4: Event, max: Option<nat>, w1: World, w2: World,
                      w3: World)
    requires Enabled(w, e1) && !e1.Connects? && w1 == Next(w, e1, max)
    requires Enabled(w1, e2) && (e2.Connects? ==> !w1.session.timer) && w2 == Next(w1, e2, max)
    requires Enabled(w2, e3) && !e3.Connects? && w3 == Next(w2, e3, max)
    requires Enabled(w3, e4) && !e4.Connects?
    ensures CalmlyLeads(w, [e1, e2, e3, e4], max, Next(w3, e4, max))
  {
    var es, v := [e1, e2, e3, e4], Next(w3, e4, max);
    assert CalmlyLeads(w3, es[3..], max, v);
    assert CalmlyLeads(w2, es[2..], max, v);
    assert CalmlyLeads(w1, es[1..], max, v);
  }
}
