/** What one look at a session comes to, case by case, in terms of what was observed. */
module SessionOutcome {
  import opened Common
  import opened SessionMonitor

  /** The log has another size than the last look recorded for it. */
  predicate LogGrew(s: State, session: Session, obs: Observation) {
    && session.logPath.Some? && obs.logSize.Some?
    && session.logPath.value in s.logSizes && s.logSizes[session.logPath.value] != obs.logSize.value
  }

  /** How often this prompt of this session has been answered, by the record of attempts. */
  function TimesTried(s: State, id: Id, name: string): nat {
    if id in s.attempts && name in s.attempts[id] then s.attempts[id][name] else 0
  }

  /** The screen shows a prompt that was tried less than twice. */
  predicate Answerable(s: State, id: Id, screen: Capture) {
    screen.Screen? && screen.prompt.Some? && TimesTried(s, id, screen.prompt.value.name) < 2
  }

  /** Only this session is touched, and of its record only the status and the time of its last output. */
  ghost predicate OnlyTouches(s: State, r: State, id: Id)
    requires id in s.sessions
  {
    && r.sessions.Keys == s.sessions.Keys
    && (forall other <- s.sessions :: other != id ==> r.sessions[other] == s.sessions[other])
    && r.sessions[id].createdAt == s.sessions[id].createdAt
    && r.sessions[id].logPath == s.sessions[id].logPath && r.sessions[id].hasTask == s.sessions[id].hasTask
  }

  /** The session ends with this status, now, and that is announced; its log is no longer watched. */
  ghost predicate Ends(s: State, r: State, id: Id, status: Status, now: int)
    requires id in s.sessions
  {
    && OnlyTouches(s, r, id)
    && r.sessions[id].status == status && r.sessions[id].lastOutputAt == Some(now)
    && r.published == s.published + [StatusChanged(id, status)]
    && (s.sessions[id].logPath.Some? ==> s.sessions[id].logPath.value !in r.logSizes)
  }

  /** One more try of the prompt is on record, and nothing else changes there. */
  ghost predicate OneMoreTry(s: State, r: State, id: Id, name: string) {
    forall id', name' ::
      TimesTried(r, id', name') == TimesTried(s, id', name') + (if id' == id && name' == name then 1 else 0)
  }

  /** The log's size is on record, when the log can be looked at. */
  ghost predicate LogIsWatched(s: State, r: State, session: Session, obs: Observation) {
    r.logSizes == if session.logPath.Some? && obs.logSize.Some? then s.logSizes[session.logPath.value := obs.logSize.value]
                  else s.logSizes
  }

  /** The terminal cannot be reached: completed if the log has text, failed if not. */
  lemma UnreachableEnds(s: State, id: Id, obs: Observation, staleMs: int)
    requires id in s.sessions && !s.sessions[id].status.Terminal() && obs.capture.Unavailable?
    ensures var r := Reconcile(s, id, obs, staleMs);
            && Ends(s, r, id, if obs.logHasText then Completed else Failed, obs.now)
            && r.attempts == s.attempts
  {
  }

  /** A fatal error on the screen comes before anything else on it. */
  lemma FatalFails(s: State, id: Id, obs: Observation, staleMs: int)
    requires id in s.sessions && !s.sessions[id].status.Terminal() && obs.capture.Screen? && obs.capture.fatal
    ensures var r := Reconcile(s, id, obs, staleMs);
            Ends(s, r, id, Failed, obs.now) && r.attempts == s.attempts - {id}
  {
  }

  /** Then a completed task, of a session that has one. */
  lemma CompletedCompletes(s: State, id: Id, obs: Observation, staleMs: int)
    requires id in s.sessions && !s.sessions[id].status.Terminal() && obs.capture.Screen? && !obs.capture.fatal
    requires obs.capture.completed && s.sessions[id].hasTask
    ensures var r := Reconcile(s, id, obs, staleMs);
            Ends(s, r, id, Completed, obs.now) && r.attempts == s.attempts - {id}
  {
  }

  /** The screen ends nothing. */
  predicate GoesOn(s: State, id: Id, obs: Observation)
    requires id in s.sessions
  {
    && !s.sessions[id].status.Terminal() && obs.capture.Screen? && !obs.capture.fatal
    && !(obs.capture.completed && s.sessions[id].hasTask)
  }

  /** Then a prompt that may still be answered: it is answered, or, if the keys cannot be sent, the session is lost. */
  lemma PromptIsAnswered(s: State, id: Id, obs: Observation, staleMs: int)
    requires id in s.sessions && GoesOn(s, id, obs) && Answerable(s, id, obs.capture)
    ensures var r, prompt := Reconcile(s, id, obs, staleMs), obs.capture.prompt.value;
            && OneMoreTry(s, r, id, prompt.name)
            && (if prompt.delivered then
                  && OnlyTouches(s, r, id) && LogIsWatched(s, r, s.sessions[id], obs)
                  && r.sessions[id].status == s.sessions[id].status && r.sessions[id].lastOutputAt == Some(obs.now)
                  && r.published == s.published + [PromptAnswered(id, prompt.name)]
                else Ends(s, r, id, if obs.logHasText then Completed else Failed, obs.now))
  {
    hide InferSessionStatus;
  }

  /**
   * Otherwise the status follows the screen: approval before input, input before staleness, and stale once more than
   * `staleMs` have passed since the last output, or since the session was created when there was none.
   */
  lemma ScreenDecides(s: State, id: Id, obs: Observation, staleMs: int)
    requires id in s.sessions && GoesOn(s, id, obs) && !Answerable(s, id, obs.capture)
    ensures var r, before := Reconcile(s, id, obs, staleMs), s.sessions[id];
            var after := r.sessions[id];
            var since := if before.lastOutputAt.Some? then before.lastOutputAt.value else before.createdAt;
            && OnlyTouches(s, r, id) && LogIsWatched(s, r, before, obs) && r.attempts == s.attempts
            && (after.status == WaitingApproval <==> obs.capture.approval)
            && (after.status == WaitingInput <==> !obs.capture.approval && obs.capture.input)
            && (after.status == Stale <==> !obs.capture.approval && !obs.capture.input && obs.now > since + staleMs)
            && (after.status == Running <==> !obs.capture.approval && !obs.capture.input && obs.now <= since + staleMs)
            && after.lastOutputAt == (if LogGrew(s, before, obs) then Some(obs.now) else before.lastOutputAt)
            && r.published == s.published + (if after.status == before.status then [] else [StatusChanged(id, after.status)])
  {
  }

  /** A session that has ended is only forgotten. */
  lemma TerminalIsForgotten(s: State, id: Id, obs: Observation, staleMs: int)
    requires id in s.sessions && s.sessions[id].status.Terminal()
    ensures var r := Reconcile(s, id, obs, staleMs);
            && r.sessions == s.sessions && r.published == s.published && r.attempts == s.attempts - {id}
            && (s.sessions[id].logPath.Some? ==> s.sessions[id].logPath.value !in r.logSizes)
  {
  }

  /** Ended means failed, killed or completed. */
  lemma TerminalExactly(status: Status)
    ensures status.Terminal() <==> status in {Failed, Killed, Completed}
  {
  }

  /** A pass first forgets the sizes of logs, and the attempts, that belong to no listed session, and nothing else. */
  lemma PruneForgets(s: State)
    ensures var r := Pruned(s);
            && r.sessions == s.sessions && r.published == s.published
            && (forall p :: p in r.logSizes <==>
                  p in s.logSizes && exists id <- s.sessions :: s.sessions[id].logPath == Some(p))
            && (forall p <- r.logSizes :: r.logSizes[p] == s.logSizes[p])
            && (forall id :: id in r.attempts <==> id in s.attempts && id in s.sessions)
            && (forall id <- r.attempts :: r.attempts[id] == s.attempts[id])
  {
    forall p
      ensures p in Pruned(s).logSizes <==> p in s.logSizes && exists id <- s.sessions :: s.sessions[id].logPath == Some(p)
    {
      if id :| id in s.sessions && s.sessions[id].logPath == Some(p) {
        assert s.sessions[id].logPath.Some? && s.sessions[id].logPath.value == p;
      }
    }
  }
}
