/** Authentication on one connection: the agents are tried one after the other until the linker accepts one. */
module AuthFailover {
  import opened Sequences
  import opened WebSocketSessions
  import opened WebSocketRuns
  import opened Wrappers

  /** The agents for which authentication was asked on a socket. */
  function Tried(sent: seq<Message>): seq<Agent> {
    if sent == [] then []
    else
      var tried := Tried(sent[..|sent| - 1]);
      if sent[|sent| - 1].Auth? then tried + [sent[|sent| - 1].agent] else tried
  }

  /** The session after the linker's answers, true for success; nothing else happens on the connection. */
  function Answered(s: Session, answers: seq<bool>): Session {
    if answers == [] then s
    else
      var t := Answered(s, answers[..|answers| - 1]);
      if answers[|answers| - 1] then AfterAuthOk(t) else AfterAuthError(t)
  }

  /** A socket has just opened. */
  predicate JustOpened(s: Session) {
    IsOpen(s) && s.ws.value.sent == [] && !s.authenticated
  }

  lemma TriedAfterSend(s: Session, m: Message)
    requires IsOpen(s)
    ensures Tried(AfterSend(s, m).ws.value.sent)
         == Tried(s.ws.value.sent) + if m.Auth? then [m.agent] else []
  {
    var sent := s.ws.value.sent + [m];
    assert sent[..|sent| - 1] == s.ws.value.sent;
  }

  lemma {:induction false} FlushTriesNobody(s: Session, n: nat)
    requires n <= |s.pending| && IsOpen(s)
    ensures IsOpen(AfterFlush(s, n)) && Tried(AfterFlush(s, n).ws.value.sent) == Tried(s.ws.value.sent)
  {
    if n > 0 {
      FlushTriesNobody(s, n - 1);
      TriedAfterSend(AfterFlush(s, n - 1), Register(s.pending[n - 1]));
    }
  }

  lemma AuthOkTriesNobody(s: Session)
    requires IsOpen(s)
    ensures IsOpen(AfterAuthOk(s)) && Tried(AfterAuthOk(s).ws.value.sent) == Tried(s.ws.value.sent)
    ensures IsConnected(AfterAuthOk(s)) && AfterAuthOk(s).pendingAuth == None
  {
    var t := s.(authenticated := true, pendingAuth := None, state := Connected);
    FlushTriesNobody(t, |t.pending|);
    AuthOkMoves(s);
  }

  lemma {:induction false} UntriedMeaning(agents: seq<Agent>, failed: set<Agent>)
    ensures var next := FirstUntried(agents, failed);
            if next.None? then forall a :: a in agents ==> a in failed
            else next.value in agents && next.value !in failed
  {
    if agents != [] {
      UntriedMeaning(agents[1..], failed);
      assert agents == [agents[0]] + agents[1..];
    }
  }

  /** With the failed agents growing, a search that found nobody still finds nobody. */
  lemma {:induction false} StillNobody(agents: seq<Agent>, failed: set<Agent>, more: set<Agent>)
    requires !Names(FirstUntried(agents, failed)) && failed <= more && "" !in more
    ensures !Names(FirstUntried(agents, more))
  {
    if agents != [] && agents[0] in failed {
      StillNobody(agents[1..], failed, more);
    }
  }

  // ---------------------------------------------------------------- while no agent has been accepted

  /** `tried` agents so far; the last one is still being tried, or the search is over. */
  ghost predicate Trying(s: Session, candidates: seq<Agent>, tried: seq<Agent>) {
    && IsOpen(s) && Tried(s.ws.value.sent) == tried && Candidates(s) == candidates && !s.authenticated
    && Distinct(tried) && "" !in tried && "" !in s.failed && Elements(tried) <= Elements(candidates)
    && (Trial(s, tried) || !Names(FirstUntried(candidates, s.failed)))
    && (Names(s.pendingAuth) && tried != [] ==> Trial(s, tried))
    && (!Names(s.pendingAuth) ==> Elements(tried) <= s.failed)
  }

  ghost predicate Trial(s: Session, tried: seq<Agent>) {
    tried != [] && s.pendingAuth == Some(tried[|tried| - 1]) && s.failed == Elements(tried[..|tried| - 1])
    && s.state == Authenticating
  }

  lemma NextTrial(s: Session, candidates: seq<Agent>, tried: seq<Agent>)
    requires IsOpen(s) && Tried(s.ws.value.sent) == tried && Candidates(s) == candidates && !s.authenticated
    requires Distinct(tried) && "" !in tried && Elements(tried) <= Elements(candidates)
    requires s.failed == Elements(tried) || !Names(FirstUntried(candidates, s.failed))
    ensures var t := AfterTryNext(s);
            var next := FirstUntried(candidates, s.failed);
            if !Names(next) then t == s
            else IsOpen(t) && !t.authenticated && Candidates(t) == candidates
                 && Tried(t.ws.value.sent) == tried + [next.value]
                 && Distinct(tried + [next.value]) && "" !in tried + [next.value]
                 && Elements(tried + [next.value]) <= Elements(candidates) && Trial(t, tried + [next.value])
                 && t.failed == s.failed
  {
    var next := FirstUntried(candidates, s.failed);
    if Names(next) {
      UntriedMeaning(candidates, s.failed);
      TriedAfterSend(s.(pendingAuth := next, state := Authenticating), Auth(next.value));
      var more := tried + [next.value];
      assert next.value in Elements(candidates);
      assert next.value !in Elements(tried);
      assert more[..|more| - 1] == tried;
      assert Elements(more) == Elements(tried) + {next.value};
    }
  }

  lemma OpeningTries(s: Session)
    requires JustOpened(s)
    ensures Trying(AfterOpen(s), Candidates(s), Tried(AfterOpen(s).ws.value.sent))
    ensures |Tried(AfterOpen(s).ws.value.sent)| <= 1
    ensures Names(AfterOpen(s).pendingAuth) && Tried(AfterOpen(s).ws.value.sent) == [] ==>
              !Names(FirstUntried(Candidates(s), {}))
  {
    var t := s.(attempts := 0, failed := {});
    assert Candidates(t) == Candidates(s);
    NextTrial(t, Candidates(s), []);
  }

  /** A failure moves on to one agent more, or ends the search. */
  lemma FailureTries(s: Session, candidates: seq<Agent>, tried: seq<Agent>)
    requires Trying(s, candidates, tried)
    ensures var t := AfterAuthError(s);
            && IsOpen(t) && Trying(t, candidates, Tried(t.ws.value.sent))
            && (Names(t.pendingAuth) ==> tried != [] && |Tried(t.ws.value.sent)| == |tried| + 1)
            && (!Names(t.pendingAuth) ==> t.state == Connected && !Names(FirstUntried(candidates, t.failed)))
  {
    if Names(s.pendingAuth) {
      var t := s.(authenticated := false, failed := s.failed + {s.pendingAuth.value}, pendingAuth := None);
      assert Candidates(t) == candidates;
      if tried != [] {
        assert tried == tried[..|tried| - 1] + [tried[|tried| - 1]];
        assert t.failed == Elements(tried);
      } else {
        StillNobody(candidates, s.failed, t.failed);
      }
      NextTrial(t, candidates, tried);
    }
  }

  // ---------------------------------------------------------------- whatever the linker answers

  lemma {:induction false} FailuresTry(s: Session, answers: seq<bool>)
    requires JustOpened(s) && true !in answers
    ensures var t := Answered(AfterOpen(s), answers);
            && IsOpen(t) && Trying(t, Candidates(s), Tried(t.ws.value.sent))
            && (Names(t.pendingAuth) && answers != [] ==> |Tried(t.ws.value.sent)| == |answers| + 1)
            && (Names(t.pendingAuth) && answers == [] ==> |Tried(t.ws.value.sent)| <= 1)
            && (!Names(t.pendingAuth) && answers != [] ==>
                  t.state == Connected && !Names(FirstUntried(Candidates(s), t.failed)))
  {
    OpeningTries(s);
    if answers != [] {
      var before := answers[..|answers| - 1];
      assert !answers[|answers| - 1] by {
        assert answers[|answers| - 1] in answers;
      }
      FailuresTry(s, before);
      var t := Answered(AfterOpen(s), before);
      FailureTries(t, Candidates(s), Tried(t.ws.value.sent));
    }
  }

  /** On one connection no agent is tried twice, only registered ones are tried, and after a success nobody more is. */
  lemma {:induction false} EachAgentIsTriedOnce(s: Session, answers: seq<bool>)
    requires JustOpened(s)
    ensures var t := Answered(AfterOpen(s), answers);
            && IsOpen(t) && Distinct(Tried(t.ws.value.sent))
            && Elements(Tried(t.ws.value.sent)) <= Elements(Candidates(s))
            && (true in answers ==> !Names(t.pendingAuth))
            && (answers != [] && answers[|answers| - 1] ==> IsConnected(t))
  {
    if true !in answers {
      FailuresTry(s, answers);
    } else {
      var n := |answers| - 1;
      EachAgentIsTriedOnce(s, answers[..n]);
      if answers[n] {
        AuthOkTriesNobody(Answered(AfterOpen(s), answers[..n]));
      } else {
        assert true in answers[..n];
      }
    }
  }

  lemma {:induction false} NobodyLeft(agents: seq<Agent>, failed: set<Agent>)
    requires !Names(FirstUntried(agents, failed)) && "" !in agents
    ensures Elements(agents) <= failed
  {
    if agents != [] {
      assert agents[0] in agents;
      NobodyLeft(agents[1..], failed);
      assert Elements(agents) == {agents[0]} + Elements(agents[1..]);
    }
  }

  lemma {:induction false} FewerThan<T>(a: set<T>, b: set<T>)
    requires a <= b
    ensures |a| <= |b|
  {
    if a != {} {
      var x :| x in a;
      FewerThan(a - {x}, b - {x});
    }
  }

  /** If the linker accepts nobody, the search ends with as many failures as there are agents (and at least one): the
      service is then connected but not authenticated. Every agent has failed if and only if none of them has the
      empty name, which stops the search where it stands. */
  lemma FailoverEnds(s: Session, answers: seq<bool>)
    requires JustOpened(s) && true !in answers && answers != [] && |answers| >= |Elements(Candidates(s))|
    ensures var t := Answered(AfterOpen(s), answers);
            && t.state == Connected && !t.authenticated && !Names(t.pendingAuth)
            && !Names(FirstUntried(Candidates(s), t.failed))
            && (Elements(Candidates(s)) <= t.failed <==> "" !in Candidates(s))
  {
    FailuresTry(s, answers);
    var t := Answered(AfterOpen(s), answers);
    if Names(t.pendingAuth) {
      DistinctCount(Tried(t.ws.value.sent));
      FewerThan(Elements(Tried(t.ws.value.sent)), Elements(Candidates(s)));
      assert false;
    }
    if "" !in Candidates(s) {
      NobodyLeft(Candidates(s), t.failed);
    } else {
      assert "" in Elements(Candidates(s));
    }
  }
}
