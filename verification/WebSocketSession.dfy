/** `WebSocketNetworkService`: one connection to the linker, the agents registered over it, and what happens when it is
    lost. Events are handled one after the other, as the browser runs them. */
module WebSocketSessions {
  import opened Sequences
  import opened Wrappers

  type Agent = string
  datatype Registration = Registration(dna: string, agent: Agent)

  datatype Message = Auth(agent: Agent) | Register(registration: Registration) | Unregister(registration: Registration)
  datatype Phase = Connecting | Open | Closing
  datatype State = Disconnected | ConnectionPending | Authenticating | Connected | Reconnecting

  /** The current socket: its state, whether its events reach the service, and what was sent on it. */
  datatype Link = Link(phase: Phase, attached: bool, sent: seq<Message>)

  datatype Session = Session(ws: Option<Link>, state: State, registrations: seq<Registration>,
                             pending: seq<Registration>, timer: bool, attempts: nat, authenticated: bool,
                             intentionalClose: bool, pendingAuth: Option<Agent>, failed: set<Agent>)

  const FRESH := Session(None, Disconnected, [], [], false, 0, false, false, None, {})

  // ---------------------------------------------------------------- what each handler does to a session

  predicate IsConnected(s: Session) {
    s.state == Connected && s.authenticated
  }

  predicate IsOpen(s: Session) {
    s.ws.Some? && s.ws.value.phase == Open
  }

  predicate IsTracked(s: Session, r: Registration) {
    r in s.registrations || r in s.pending
  }

  /** Messages for a socket that is not open are dropped. */
  function AfterSend(s: Session, m: Message): Session {
    if IsOpen(s) then s.(ws := Some(s.ws.value.(sent := s.ws.value.sent + [m]))) else s
  }

  function AfterAuthenticate(s: Session, agent: Agent): Session {
    AfterSend(s.(pendingAuth := Some(agent), state := Authenticating), Auth(agent))
  }

  function Agents(rs: seq<Registration>): (agents: seq<Agent>)
    ensures |agents| == |rs|
  {
    seq(|rs|, i requires 0 <= i < |rs| => rs[i].agent)
  }

  /** The agents that could authenticate the connection, in the order in which they are tried. */
  function Candidates(s: Session): seq<Agent> {
    Agents(s.pending) + Agents(s.registrations)
  }

  function FirstUntried(agents: seq<Agent>, failed: set<Agent>): Option<Agent> {
    if agents == [] then None
    else if agents[0] !in failed then Some(agents[0])
    else FirstUntried(agents[1..], failed)
  }

  /** The empty name counts as no agent. */
  predicate Names(agent: Option<Agent>) {
    agent.Some? && agent.value != ""
  }

  function AfterTryNext(s: Session): Session {
    var next := FirstUntried(Candidates(s), s.failed);
    if Names(next) then AfterAuthenticate(s, next.value) else s
  }

  function AfterOpen(s: Session): Session {
    AfterTryNext(s.(attempts := 0, failed := {}))
  }

  /** The first `n` pending registrations have been sent and are tracked as registered. */
  function AfterFlush(s: Session, n: nat): (t: Session)
    requires n <= |s.pending|
    ensures t.pending == s.pending && t.ws.Some? == s.ws.Some?
  {
    if n == 0 then s
    else
      var t := AfterSend(AfterFlush(s, n - 1), Register(s.pending[n - 1]));
      t.(registrations := t.registrations + [s.pending[n - 1]])
  }

  function AfterAuthOk(s: Session): Session {
    var t := s.(authenticated := true, pendingAuth := None, state := Connected);
    AfterFlush(t, |t.pending|).(pending := [])
  }

  function AfterAuthError(s: Session): Session {
    if !Names(s.pendingAuth) then s.(authenticated := false, state := Connected)
    else
      var t := AfterTryNext(s.(authenticated := false, failed := s.failed + {s.pendingAuth.value},
                               pendingAuth := None));
      if Names(t.pendingAuth) then t else t.(state := Connected)
  }

  function AfterCleanup(s: Session): Session {
    s.(timer := false, ws := None, authenticated := false, failed := {})
  }

  function AfterSchedule(s: Session, max: Option<nat>): Session {
    if s.timer then s
    else if max.Some? && s.attempts >= max.value then s.(state := Disconnected)
    else s.(state := Reconnecting, attempts := s.attempts + 1, timer := true)
  }

  function AfterClose(s: Session, max: Option<nat>): Session {
    var t := AfterCleanup(s).(pending := s.pending + s.registrations, registrations := []);
    if s.intentionalClose then t.(state := Disconnected) else AfterSchedule(t, max)
  }

  /** `constructed` says whether the browser made a socket or threw. */
  function AfterConnect(s: Session, constructed: bool, max: Option<nat>): Session {
    if s.ws.Some? then s
    else
      var t := s.(intentionalClose := false, state := ConnectionPending);
      if constructed then t.(ws := Some(Link(Connecting, true, []))) else AfterSchedule(t, max)
  }

  function AfterTimer(s: Session, constructed: bool, max: Option<nat>): Session {
    AfterConnect(s.(timer := false, ws := None), constructed, max)
  }

  function AfterDisconnect(s: Session): Session {
    AfterCleanup(s.(intentionalClose := true)).(state := Disconnected)
  }

  function AfterRegister(s: Session, r: Registration): Session {
    if IsConnected(s) then
      var t := AfterSend(s, Register(r));
      if IsTracked(s, r) then t else t.(registrations := t.registrations + [r])
    else
      var t := if IsTracked(s, r) then s else s.(pending := s.pending + [r]);
      if IsOpen(t) && !t.authenticated && t.state != Authenticating then AfterAuthenticate(t, r.agent) else t
  }

  function AfterUnregister(s: Session, r: Registration): Session {
    var t := s.(registrations := Without(s.registrations, r), pending := Without(s.pending, r));
    if IsConnected(s) then AfterSend(t, Unregister(r)) else t
  }

  function AfterHeartbeatTimeout(s: Session): Session {
    if s.ws.Some? then s.(ws := Some(s.ws.value.(phase := Closing))) else s
  }

  // ---------------------------------------------------------------- the classes

  /** The browser's socket. */
  class Socket {
    var phase: Phase
    var attached: bool
    var sent: seq<Message>

    constructor ()
      ensures phase == Connecting && attached && sent == []
    {
      phase, attached, sent := Connecting, true, [];
    }
  }

  class WebSocketNetworkService {
    const maxReconnectAttempts: Option<nat>
    var ws: Socket?
    var state: State
    var registrations: seq<Registration>
    var pendingRegistrations: seq<Registration>
    var reconnectTimer: bool
    var reconnectAttempts: nat
    var authenticated: bool
    var intentionalClose: bool
    var pendingAuthAgent: Option<Agent>
    var failedAuthAgents: set<Agent>

    ghost function View(): Session
      reads this, ws
    {
      Session(if ws == null then None else Some(Link(ws.phase, ws.attached, ws.sent)), state, registrations,
                      pendingRegistrations, reconnectTimer, reconnectAttempts, authenticated, intentionalClose,
                      pendingAuthAgent, failedAuthAgents)
    }

    constructor (maxReconnectAttempts: Option<nat>)
      ensures View() == FRESH && this.maxReconnectAttempts == maxReconnectAttempts
    {
      this.maxReconnectAttempts := maxReconnectAttempts;
      ws, state, registrations, pendingRegistrations := null, Disconnected, [], [];
      reconnectTimer, reconnectAttempts, authenticated, intentionalClose := false, 0, false, false;
      pendingAuthAgent, failedAuthAgents := None, {};
    }

    method Send(message: Message)
      modifies ws
      ensures View() == AfterSend(old(View()), message)
    {
      if ws != null && ws.phase == Open {
        ws.sent := ws.sent + [message];
      }
    }

    method Authenticate(agent: Agent)
      modifies this`pendingAuthAgent, this`state, ws
      ensures View() == AfterAuthenticate(old(View()), agent)
    {
      pendingAuthAgent := Some(agent);
      state := Authenticating;
      Send(Auth(agent));
    }

    /** Looks for the first agent of pending and confirmed registrations that has not failed on this connection. */
    method TryAuthenticateNextAgent()
      modifies this`pendingAuthAgent, this`state, ws
      ensures View() == AfterTryNext(old(View()))
    {
      var agents := Agents(pendingRegistrations) + Agents(registrations);
      var i := 0;
      while i < |agents| && agents[i] in failedAuthAgents
        invariant i <= |agents|
        invariant FirstUntried(agents[i..], failedAuthAgents) == FirstUntried(agents, failedAuthAgents)
      {
        i := i + 1;
      }
      if i < |agents| && agents[i] != "" {
        Authenticate(agents[i]);
      }
    }

    method HandleOpen()
      modifies this`reconnectAttempts, this`failedAuthAgents, this`pendingAuthAgent, this`state, ws
      ensures View() == AfterOpen(old(View()))
    {
      reconnectAttempts, failedAuthAgents := 0, {};
      TryAuthenticateNextAgent();
    }

    method ProcessPendingRegistrations()
      modifies this`registrations, this`pendingRegistrations, ws
      ensures View() == AfterFlush(old(View()), |old(pendingRegistrations)|).(pending := [])
    {
      for i := 0 to |pendingRegistrations|
        invariant pendingRegistrations == old(pendingRegistrations) && i <= |pendingRegistrations|
        invariant View() == AfterFlush(old(View()), i)
      {
        Send(Register(pendingRegistrations[i]));
        registrations := registrations + [pendingRegistrations[i]];
      }
      pendingRegistrations := [];
    }

    method HandleAuthOk()
      modifies this, ws
      ensures View() == AfterAuthOk(old(View())) && ws == old(ws)
    {
      authenticated, pendingAuthAgent, state := true, None, Connected;
      ProcessPendingRegistrations();
    }

    method HandleAuthError()
      modifies this, ws
      ensures View() == AfterAuthError(old(View())) && ws == old(ws)
    {
      authenticated := false;
      if pendingAuthAgent.Some? && pendingAuthAgent.value != "" {
        failedAuthAgents := failedAuthAgents + {pendingAuthAgent.value};
        pendingAuthAgent := None;
        TryAuthenticateNextAgent();
        if pendingAuthAgent.Some? && pendingAuthAgent.value != "" {
          return;
        }
      }
      state := Connected;
    }

    /** The socket is detached before it is closed: it will not report its own closing. */
    method Cleanup()
      modifies this`reconnectTimer, this`ws, this`authenticated, this`failedAuthAgents, ws
      ensures View() == AfterCleanup(old(View()))
      ensures old(ws) != null ==> !old(ws).attached && old(ws).phase == Closing
    {
      reconnectTimer := false;
      if ws != null {
        ws.attached := false;
        if ws.phase == Open || ws.phase == Connecting {
          ws.phase := Closing;
        }
        ws := null;
      }
      authenticated := false;
      failedAuthAgents := {};
    }

    method ScheduleReconnect()
      modifies this`state, this`reconnectAttempts, this`reconnectTimer
      ensures View() == AfterSchedule(old(View()), maxReconnectAttempts)
    {
      if reconnectTimer {
        return;
      }
      if maxReconnectAttempts.Some? && reconnectAttempts >= maxReconnectAttempts.value {
        state := Disconnected;
        return;
      }
      state := Reconnecting;
      reconnectAttempts := reconnectAttempts + 1;
      reconnectTimer := true;
    }

    method HandleClose()
      modifies this, ws
      ensures View() == AfterClose(old(View()), maxReconnectAttempts)
    {
      Cleanup();
      if |registrations| > 0 {
        pendingRegistrations := pendingRegistrations + registrations;
        registrations := [];
      }
      if !intentionalClose {
        ScheduleReconnect();
      } else {
        state := Disconnected;
      }
    }

    method Connect(constructed: bool)
      modifies this
      ensures View() == AfterConnect(old(View()), constructed, maxReconnectAttempts)
      ensures old(ws) != null ==> ws == old(ws)
      ensures old(ws) == null && ws != null ==> fresh(ws)
    {
      if ws != null {
        return;
      }
      intentionalClose := false;
      state := ConnectionPending;
      if constructed {
        ws := new Socket();
      } else {
        ScheduleReconnect();
      }
    }

    /** The callback of the reconnect timer. It forgets whatever socket there is, without closing or detaching it. */
    method ReconnectTimerFires(constructed: bool)
      requires reconnectTimer
      modifies this
      ensures View() == AfterTimer(old(View()), constructed, maxReconnectAttempts)
      ensures old(ws) != null ==> ws != old(ws) && old(ws).attached == old(ws.attached)
    {
      reconnectTimer := false;
      ws := null;
      Connect(constructed);
    }

    method Disconnect()
      modifies this, ws
      ensures View() == AfterDisconnect(old(View()))
    {
      intentionalClose := true;
      Cleanup();
      state := Disconnected;
    }

    method RegisterAgent(r: Registration)
      modifies this, ws
      ensures View() == AfterRegister(old(View()), r) && ws == old(ws)
    {
      var alreadyTracked := r in registrations || r in pendingRegistrations;
      if state == Connected && authenticated {
        Send(Register(r));
        if !alreadyTracked {
          registrations := registrations + [r];
        }
      } else {
        if !alreadyTracked {
          pendingRegistrations := pendingRegistrations + [r];
        }
        if ws != null && ws.phase == Open && !authenticated && state != Authenticating {
          Authenticate(r.agent);
        }
      }
    }

    method UnregisterAgent(r: Registration)
      modifies this, ws
      ensures View() == AfterUnregister(old(View()), r) && ws == old(ws)
    {
      registrations := Without(registrations, r);
      pendingRegistrations := Without(pendingRegistrations, r);
      if state == Connected && authenticated {
        Send(Unregister(r));
      }
    }

    /** The pong did not come in time: the socket is asked to close, and stays current until it has. */
    method HeartbeatTimesOut()
      modifies ws
      ensures View() == AfterHeartbeatTimeout(old(View()))
    {
      if ws != null {
        ws.phase := Closing;
      }
    }
  }
}
