/** How the WebSocket service keeps its connection: it stays down when told to, comes back when told to, retries a
    bounded number of times, says what it is doing, and never leaves an agent that could authenticate it waiting. */
module WebSocketUpkeep {
  import opened AuthFailover
  import opened Sequences
  import opened WebSocketSessions
  import opened WebSocketRuns
  import opened Wrappers

  // ---------------------------------------------------------------- down and up again

  predicate Down(w: World) {
    var s := w.session;
    w.strays == 0 && s.ws.None? && !s.timer && !s.authenticated && s.state == Disconnected
  }

  lemma {:induction false} DownStaysDown(w: World, es: seq<Event>, max: Option<nat>, v: World)
    requires Down(w) && CalmlyLeads(w, es, max, v) && forall e :: e in es ==> !e.Connects?
    ensures Down(v)
    decreases |es|
  {
    if es != [] {
      assert es[0] in es;
      DownStaysDown(Next(w, es[0], max), es[1..], max, v);
    }
  }

  /** After an explicit disconnect nothing happens on its own: no socket, no timer, until somebody connects. */
  lemma DisconnectIsFinal(w: World, es: seq<Event>, max: Option<nat>, v: World)
    requires Orderly(w) && CalmlyLeads(w, [Disconnects] + es, max, v) && forall e :: e in es ==> !e.Connects?
    ensures Down(v)
  {
    assert ([Disconnects] + es)[1..] == es;
    DownStaysDown(Next(w, Disconnects, max), es, max, v);
  }

  /** Connecting takes the disconnect back: from then on the service keeps itself going again. */
  lemma ConnectingTakesBackDisconnect(w: World, constructed: bool, es: seq<Event>, max: Option<nat>, v: World)
    requires Orderly(w) && CalmlyLeads(w, [Disconnects, Connects(constructed)] + es, max, v) && Disconnects !in es
    ensures Going(v, max)
  {
    var all := [Disconnects, Connects(constructed)] + es;
    var w1 := Next(w, Disconnects, max);
    var w2 := Next(w1, Connects(constructed), max);
    assert all[1..] == [Connects(constructed)] + es && all[1..][1..] == es;
    StepKeepsOrderly(w, Disconnects, max);
    StepKeepsOrderly(w1, Connects(constructed), max);
    NeverStranded(w2, es, max, v);
  }

  // ---------------------------------------------------------------- what the state says

  /** The reported state is the true one while there is no open socket: waiting to reconnect, connecting, or down. */
  predicate StateTells(s: Session) {
    && (s.timer ==> s.state == Reconnecting)
    && (s.ws.Some? && s.ws.value.phase == Connecting ==> s.state == ConnectionPending)
    && (s.ws.None? && !s.timer ==> s.state == Disconnected)
  }

  lemma StepKeepsStateTells(w: World, e: Event, max: Option<nat>)
    requires Orderly(w) && StateTells(w.session) && Enabled(w, e) && (e.Connects? ==> !w.session.timer)
    ensures StateTells(Next(w, e, max).session)
  {
    var s := w.session;
    if e.AuthSucceeds? {
      AuthOkMoves(s);
    } else if e.AuthFails? {
      ErrorTells(s);
    } else if e.Opens? {
      OpenTells(s);
    }
  }

  lemma {:induction false} StateTellsTheTruth(w: World, es: seq<Event>, max: Option<nat>, v: World)
    requires Orderly(w) && StateTells(w.session) && CalmlyLeads(w, es, max, v)
    ensures Orderly(v) && StateTells(v.session)
    decreases |es|
  {
    if es != [] {
      StepKeepsOrderly(w, es[0], max);
      StepKeepsStateTells(w, es[0], max);
      StateTellsTheTruth(Next(w, es[0], max), es[1..], max, v);
    }
  }

  // ---------------------------------------------------------------- a bounded number of retries

  function Fires(es: seq<Event>): nat {
    if es == [] then 0 else (if es[0].TimerFires? then 1 else 0) + Fires(es[1..])
  }

  function One(b: bool): nat {
    if b then 1 else 0
  }

  /** Every scheduled reconnect costs an attempt. */
  lemma StepCostsAttempts(w: World, e: Event, max: nat)
    requires Orderly(w) && w.session.attempts <= max && Enabled(w, e) && !e.Opens?
    requires e.Connects? ==> !w.session.timer
    ensures var s, t := w.session, Next(w, e, Some(max)).session;
            && t.attempts <= max
            && t.attempts + One(s.timer) >= s.attempts + One(e.TimerFires?) + One(t.timer)
  {
    if e.AuthSucceeds? {
      AuthOkMoves(w.session);
    }
  }

  /** While no socket opens, the service retries at most as often as it has attempts left, and once more if a reconnect
      was scheduled already. */
  lemma {:induction false} RetriesAreBounded(w: World, es: seq<Event>, max: nat, v: World)
    requires Orderly(w) && w.session.attempts <= max && CalmlyLeads(w, es, Some(max), v) && Opens !in es
    ensures Fires(es) + One(v.session.timer) <= max - w.session.attempts + One(w.session.timer)
    decreases |es|
  {
    if es != [] {
      assert es[0] in es && Opens !in es[1..];
      StepKeepsOrderly(w, es[0], Some(max));
      StepCostsAttempts(w, es[0], max);
      RetriesAreBounded(Next(w, es[0], Some(max)), es[1..], max, v);
    }
  }

  /** A socket that opens gives all attempts back: when it is lost, a reconnect is scheduled, as the first one. */
  lemma OpeningRestoresAttempts(w: World, max: Option<nat>)
    requires Orderly(w) && Enabled(w, Opens) && !w.session.intentionalClose && max != Some(0)
    ensures Enabled(Next(w, Opens, max), Closes)
    ensures var v := Next(Next(w, Opens, max), Closes, max);
            v.session.timer && v.session.state == Reconnecting && v.session.attempts == 1
  {
    OpenTells(w.session);
  }

  // ---------------------------------------------------------------- nobody is left waiting

  ghost predicate NamedOnly(wanted: set<Registration>) {
    forall r :: r in wanted ==> r.agent != ""
  }

  /** Every agent that something is wanted for has failed on this connection. */
  ghost predicate AllFailed(wanted: set<Registration>, failed: set<Agent>) {
    forall r :: r in wanted ==> r.agent in failed
  }

  /** An open socket that is not authenticated is being authenticated, or every agent has failed on it. */
  ghost predicate Busy(w: World) {
    var s := w.session;
    && (IsOpen(s) && !s.authenticated ==> s.state == Authenticating || AllFailed(w.wanted, s.failed))
    && (s.state == Authenticating ==> Names(s.pendingAuth))
  }

  /** The agents that are tried are those that something is wanted for. */
  lemma CandidatesMeaning(registrations: seq<Registration>, pending: seq<Registration>, wanted: set<Registration>,
                          agent: Agent)
    requires Tracks(registrations, pending, wanted)
    ensures agent in Agents(pending) + Agents(registrations) <==> exists r :: r in wanted && r.agent == agent
  {
    if r :| r in wanted && r.agent == agent {
      assert r in Elements(registrations) || r in Elements(pending);
      if r in pending {
        var i :| 0 <= i < |pending| && pending[i] == r;
        assert Agents(pending)[i] == agent;
      } else {
        var i :| 0 <= i < |registrations| && registrations[i] == r;
        assert Agents(registrations)[i] == agent;
      }
    }
    if agent in Agents(pending) {
      var i :| 0 <= i < |pending| && Agents(pending)[i] == agent;
      assert pending[i] in Elements(pending);
    } else if agent in Agents(registrations) {
      var i :| 0 <= i < |registrations| && Agents(registrations)[i] == agent;
      assert registrations[i] in Elements(registrations);
    }
  }

  lemma TryingIsBusy(s: Session, wanted: set<Registration>)
    requires Tracks(s.registrations, s.pending, wanted) && NamedOnly(wanted)
    ensures var t := AfterTryNext(s);
            && ((t.state == Authenticating && Names(t.pendingAuth)) || (t == s && AllFailed(wanted, s.failed)))
            && t.failed == s.failed && t.authenticated == s.authenticated
  {
    var next := FirstUntried(Candidates(s), s.failed);
    UntriedMeaning(Candidates(s), s.failed);
    if !Names(next) {
      forall r | r in wanted
        ensures r.agent in s.failed
      {
        CandidatesMeaning(s.registrations, s.pending, wanted, r.agent);
        if next.Some? {
          CandidatesMeaning(s.registrations, s.pending, wanted, "");
        }
      }
    }
  }

  lemma StepKeepsBusy(w: World, e: Event, max: Option<nat>)
    requires Delivering(w) && Busy(w) && NamedOnly(w.wanted) && Enabled(w, e) && Quiet(w, e)
    requires e.Registers? ==> e.r.agent != ""
    ensures Busy(Next(w, e, max))
  {
    var s := w.session;
    if e.AuthSucceeds? {
      AuthOkMoves(s);
    } else if e.AuthFails? && Names(s.pendingAuth) {
      TryingIsBusy(s.(authenticated := false, failed := s.failed + {s.pendingAuth.value}, pendingAuth := None),
                   w.wanted);
    } else if e.Opens? {
      TryingIsBusy(s.(ws := Some(s.ws.value.(phase := Open)), attempts := 0, failed := {}), w.wanted);
    }
  }

  lemma {:induction false} QuietRunsKeepBusy(w: World, es: seq<Event>, max: Option<nat>, v: World)
    requires Delivering(w) && Busy(w) && NamedOnly(w.wanted) && QuietlyLeads(w, es, max, v)
    requires forall e :: e in es && e.Registers? ==> e.r.agent != ""
    ensures Busy(v)
    decreases |es|
  {
    if es != [] {
      assert es[0] in es && forall e :: e in es[1..] ==> e in es;
      StepKeepsDelivering(w, es[0], max);
      StepKeepsBusy(w, es[0], max);
      QuietRunsKeepBusy(Next(w, es[0], max), es[1..], max, v);
    }
  }

  /** On a quiet run with named agents, an open socket is never left idle while somebody could still authenticate it:
      it is authenticated, an agent is being tried, or every agent that something is wanted for has failed on it. */
  lemma NobodyIsLeftWaiting(es: seq<Event>, max: Option<nat>, v: World)
    requires QuietlyLeads(START, es, max, v) && forall e :: e in es && e.Registers? ==> e.r.agent != ""
    requires IsOpen(v.session) && !v.session.authenticated
    ensures (v.session.state == Authenticating && Names(v.session.pendingAuth)) || AllFailed(v.wanted, v.session.failed)
  {
    QuietRunsKeepBusy(START, es, max, v);
  }

  /** Being refused after having been accepted leaves the socket idle, with the agents that are left waiting: exactly
      when some agent has not failed on it. */
  lemma LateRefusalIsIdleIff(w: World, max: Option<nat>)
    requires IsOpen(w.session) && w.session.authenticated && w.session.pendingAuth == None
    ensures var v := Next(w, AuthFails, max);
            && IsOpen(v.session) && v.session.state == Connected && !v.session.authenticated
            && (Busy(v) <==> AllFailed(w.wanted, w.session.failed))
  {
  }

  // ---------------------------------------------------------------- in which order agents are tried

  lemma {:induction false} UntriedInFront(a: seq<Agent>, b: seq<Agent>, failed: set<Agent>)
    ensures FirstUntried(a + b, failed)
         == if Elements(a) <= failed then FirstUntried(b, failed) else FirstUntried(a, failed)
  {
    if a == [] {
      assert a + b == b;
    } else {
      assert (a + b)[1..] == a[1..] + b;
      assert Elements(a) == {a[0]} + Elements(a[1..]);
      UntriedInFront(a[1..], b, failed);
    }
  }

  /** An agent of a pending registration is tried first; agents of confirmed ones only when all of those have failed. */
  lemma PendingAgentsGoFirst(s: Session)
    ensures var t := AfterTryNext(s);
            var first := if Elements(Agents(s.pending)) <= s.failed then Agents(s.registrations) else Agents(s.pending);
            var next := FirstUntried(first, s.failed);
            t == if Names(next) then AfterAuthenticate(s, next.value) else s
  {
    UntriedInFront(Agents(s.pending), Agents(s.registrations), s.failed);
  }

  /** A lost socket changes neither the agents nor the order in which the next socket will try them. */
  lemma LosingTheSocketKeepsTheOrder(s: Session, max: Option<nat>)
    ensures Candidates(AfterClose(s, max)) == Candidates(s)
  {
  }
}
