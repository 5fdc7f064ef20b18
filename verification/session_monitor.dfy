/** `reconcileSessions`: one pass over the session records, driven by what the terminal and the log show. */
module SessionMonitor {
  import opened Common

  type Id = string

  datatype Status = Running | WaitingApproval | WaitingInput | Idle | Stale | Failed | Killed | Completed {
    predicate Terminal() {
      Failed? || Killed? || Completed?
    }
  }

  datatype Session = Session(status: Status, createdAt: int, lastOutputAt: Option<int>, logPath: Option<string>, hasTask: bool)

  const MAX_AUTO_RESPONSE_ATTEMPTS_PER_PROMPT := 2

  /** An interactive prompt the adapter can answer; `delivered` says whether all its keys could be sent. */
  datatype Prompt = Prompt(name: string, delivered: bool)

  /** What capturing the terminal shows, as far as the adapter and the text patterns tell. */
  datatype Capture =
    | Unavailable
    | Screen(fatal: bool, completed: bool, prompt: Option<Prompt>, approval: bool, input: bool)

  /** One pass's view of one session: the size of its log if that can be read, the clock, the terminal, the log's text. */
  datatype Observation = Observation(logSize: Option<nat>, now: int, capture: Capture, logHasText: bool)

  datatype Published = StatusChanged(id: Id, status: Status) | PromptAnswered(id: Id, name: string)

  datatype State = State(
    sessions: map<Id, Session>,
    logSizes: map<string, nat>,
    attempts: map<Id, map<string, nat>>,
    published: seq<Published>)

  /** The tail of the screen decides first, then how long there has been no output. */
  function InferSessionStatus(screen: Capture, lastOutputAt: int, now: int, staleMs: int): Status
    requires screen.Screen?
  {
    if screen.approval then WaitingApproval
    else if screen.input then WaitingInput
    else if now - lastOutputAt > staleMs then Stale
    else Running
  }

  /** `logFileChanged`: a log is known to have grown only from the second look at it on. */
  function LogFileChanged(logSizes: map<string, nat>, session: Session, logSize: Option<nat>): (map<string, nat>, bool) {
    if session.logPath.None? || logSize.None? then (logSizes, false)
    else
      var path := session.logPath.value;
      (logSizes[path := logSize.value], path in logSizes && logSizes[path] != logSize.value)
  }

  function ForgetLogSize(logSizes: map<string, nat>, session: Session): map<string, nat> {
    if session.logPath.Some? then logSizes - {session.logPath.value} else logSizes
  }

  function Attempts(attempts: map<Id, map<string, nat>>, id: Id, name: string): nat {
    if id in attempts && name in attempts[id] then attempts[id][name] else 0
  }

  function CountAttempt(attempts: map<Id, map<string, nat>>, id: Id, name: string): map<Id, map<string, nat>> {
    var byLabel := if id in attempts then attempts[id] else map[];
    attempts[id := byLabel[name := Attempts(attempts, id, name) + 1]]
  }

  function SetSession(s: State, id: Id, session: Session): State {
    s.(sessions := s.sessions[id := session])
  }

  /** A session whose terminal cannot be reached any more, or whose keys could not be sent. */
  function Lost(s: State, id: Id, obs: Observation): State
    requires id in s.sessions
  {
    var status := if obs.logHasText then Completed else Failed;
    var session := s.sessions[id];
    SetSession(s, id, session.(status := status, lastOutputAt := Some(obs.now)))
    .(logSizes := ForgetLogSize(s.logSizes, session), published := s.published + [StatusChanged(id, status)])
  }

  /** A session that its own screen ends: fatal error or completed task. */
  function Ended(s: State, id: Id, status: Status, obs: Observation): State
    requires id in s.sessions
  {
    var session := s.sessions[id];
    SetSession(s, id, session.(status := status, lastOutputAt := Some(obs.now)))
    .(logSizes := ForgetLogSize(s.logSizes, session),
      attempts := s.attempts - {id},
      published := s.published + [StatusChanged(id, status)])
  }

  function Answered(s: State, id: Id, prompt: Prompt, obs: Observation): State
    requires id in s.sessions
  {
    var counted := s.(attempts := CountAttempt(s.attempts, id, prompt.name));
    if !prompt.delivered then Lost(counted, id, obs)
    else
      SetSession(counted, id, s.sessions[id].(lastOutputAt := Some(obs.now)))
      .(published := s.published + [PromptAnswered(id, prompt.name)])
  }

  function Polled(s: State, id: Id, hasNewOutput: bool, obs: Observation, staleMs: int): State
    requires id in s.sessions && obs.capture.Screen?
  {
    var session := s.sessions[id];
    var since := if session.lastOutputAt.Some? then session.lastOutputAt.value else session.createdAt;
    var next := InferSessionStatus(obs.capture, since, obs.now, staleMs);
    SetSession(s, id, session.(status := next, lastOutputAt := if hasNewOutput then Some(obs.now) else session.lastOutputAt))
    .(published := s.published + (if next != session.status then [StatusChanged(id, next)] else []))
  }

  /** One session of one pass. */
  function Reconcile(s: State, id: Id, obs: Observation, staleMs: int): State
    requires id in s.sessions
  {
    var session := s.sessions[id];
    if session.status.Terminal() then
      s.(logSizes := ForgetLogSize(s.logSizes, session), attempts := s.attempts - {id})
    else
      var (sizes, hasNewOutput) := LogFileChanged(s.logSizes, session, obs.logSize);
      var looked := s.(logSizes := sizes);
      match obs.capture
      case Unavailable => Lost(looked, id, obs)
      case Screen(fatal, completed, prompt, _, _) =>
        if fatal then Ended(looked, id, Failed, obs)
        else if session.hasTask && completed then Ended(looked, id, Completed, obs)
        else if prompt.Some? && Attempts(s.attempts, id, prompt.value.name) < MAX_AUTO_RESPONSE_ATTEMPTS_PER_PROMPT
        then Answered(looked, id, prompt.value, obs)
        else Polled(looked, id, hasNewOutput, obs, staleMs)
  }

  /** The caches, at the start of a pass over everything, keep nothing about sessions, or logs, that are no longer listed. */
  function Pruned(s: State): State {
    var paths := set id <- s.sessions | s.sessions[id].logPath.Some? :: s.sessions[id].logPath.value;
    s.(logSizes := map path | path in s.logSizes && path in paths :: s.logSizes[path],
       attempts := map id | id in s.attempts && id in s.sessions :: s.attempts[id])
  }

  function ReconcileEach(s: State, listing: seq<Id>, obs: map<Id, Observation>, staleMs: int): (r: State)
    requires forall id <- listing :: id in s.sessions && id in obs
    ensures r.sessions.Keys == s.sessions.Keys
    decreases |listing|
  {
    if listing == [] then s
    else
      var front := listing[..|listing| - 1];
      var id := listing[|listing| - 1];
      Reconcile(ReconcileEach(s, front, obs, staleMs), id, obs[id], staleMs)
  }

  /** The module-level caches and the stored records, updated in place. */
  class Monitor {
    var sessions: map<Id, Session>
    var logSizes: map<string, nat>
    var attempts: map<Id, map<string, nat>>
    var published: seq<Published>
    const staleMs: int

    function View(): State
      reads this
    {
      State(sessions, logSizes, attempts, published)
    }

    constructor (sessions: map<Id, Session>, staleMs: int)
      ensures View() == State(sessions, map[], map[], []) && this.staleMs == staleMs
    {
      this.sessions, this.staleMs := sessions, staleMs;
      logSizes, attempts, published := map[], map[], [];
    }

    method Update(id: Id, session: Session)
      modifies this`sessions
      ensures sessions == old(sessions)[id := session]
    {
      sessions := sessions[id := session];
    }

    method Publish(event: Published)
      modifies this`published
      ensures published == old(published) + [event]
    {
      published := published + [event];
    }

    method MarkLost(id: Id, obs: Observation)
      requires id in sessions
      modifies this
      ensures View() == Lost(old(View()), id, obs)
    {
      var session := sessions[id];
      var status := if obs.logHasText then Completed else Failed;
      Update(id, session.(status := status, lastOutputAt := Some(obs.now)));
      logSizes := ForgetLogSize(logSizes, session);
      Publish(StatusChanged(id, status));
    }

    method MarkEnded(id: Id, status: Status, obs: Observation)
      requires id in sessions
      modifies this
      ensures View() == Ended(old(View()), id, status, obs)
    {
      var session := sessions[id];
      Update(id, session.(status := status, lastOutputAt := Some(obs.now)));
      logSizes := ForgetLogSize(logSizes, session);
      attempts := attempts - {id};
      Publish(StatusChanged(id, status));
    }

    method ReconcileSession(id: Id, obs: Observation)
      requires id in sessions
      modifies this
      ensures View() == Reconcile(old(View()), id, obs, staleMs)
    {
      var session := sessions[id];
      if session.status.Terminal() {
        logSizes := ForgetLogSize(logSizes, session);
        attempts := attempts - {id};
        return;
      }
      var (sizes, hasNewOutput) := LogFileChanged(logSizes, session, obs.logSize);
      logSizes := sizes;
      if obs.capture.Unavailable? {
        MarkLost(id, obs);
        return;
      }
      if obs.capture.fatal {
        MarkEnded(id, Failed, obs);
        return;
      }
      if session.hasTask && obs.capture.completed {
        MarkEnded(id, Completed, obs);
        return;
      }
      if obs.capture.prompt.Some? {
        var prompt := obs.capture.prompt.value;
        if Attempts(attempts, id, prompt.name) < MAX_AUTO_RESPONSE_ATTEMPTS_PER_PROMPT {
          attempts := CountAttempt(attempts, id, prompt.name);
          if !prompt.delivered {
            MarkLost(id, obs);
            return;
          }
          Update(id, session.(lastOutputAt := Some(obs.now)));
          Publish(PromptAnswered(id, prompt.name));
          return;
        }
      }
      var since := if session.lastOutputAt.Some? then session.lastOutputAt.value else session.createdAt;
      var next := InferSessionStatus(obs.capture, since, obs.now, staleMs);
      Update(id, session.(status := next, lastOutputAt := if hasNewOutput then Some(obs.now) else session.lastOutputAt));
      if next != session.status {
        Publish(StatusChanged(id, next));
      }
    }

    method ReconcileSessions(listing: seq<Id>, obs: map<Id, Observation>)
      requires (set id <- listing) == sessions.Keys <= obs.Keys
      modifies this
      ensures View() == ReconcileEach(Pruned(old(View())), listing, obs, staleMs)
    {
      var start := Pruned(View());
      logSizes, attempts := start.logSizes, start.attempts;
      assert listing[..0] == [];
      for i := 0 to |listing|
        invariant View() == ReconcileEach(start, listing[..i], obs, staleMs)
        invariant sessions.Keys == start.sessions.Keys
      {
        assert listing[..i + 1][..i] == listing[..i];
        assert listing[i] in listing;
        ReconcileSession(listing[i], obs[listing[i]]);
      }
      assert listing[..|listing|] == listing;
    }
  }

  // ----- Runs: any passes, one after another, with no route in between -----

  /** A pass is one `Prune` and then a `Look` at each session. */
  datatype Event = Prune | Look(id: Id, obs: Observation)

  function Step(s: State, e: Event, staleMs: int): State {
    match e
    case Prune => Pruned(s)
    case Look(id, obs) => if id in s.sessions then Reconcile(s, id, obs, staleMs) else s
  }

  function Run(s: State, events: seq<Event>, staleMs: int): State {
    if events == [] then s else Step(Run(s, events[..|events| - 1], staleMs), events[|events| - 1], staleMs)
  }

  function PassEvents(listing: seq<Id>, obs: map<Id, Observation>): (events: seq<Event>)
    requires forall id <- listing :: id in obs
    ensures |events| == |listing| + 1 && events[0] == Prune
    ensures forall k | 0 <= k < |listing| :: events[k + 1] == Look(listing[k], obs[listing[k]])
  {
    if listing == [] then [Prune]
    else PassEvents(listing[..|listing| - 1], obs) + [Look(listing[|listing| - 1], obs[listing[|listing| - 1]])]
  }

  lemma {:induction false} PassIsRun(s: State, listing: seq<Id>, obs: map<Id, Observation>, staleMs: int)
    requires forall id <- listing :: id in s.sessions && id in obs
    ensures ReconcileEach(Pruned(s), listing, obs, staleMs) == Run(s, PassEvents(listing, obs), staleMs)
  {
    hide Reconcile, Pruned;
    if listing == [] {
      assert [Prune][..0] == [];
    } else {
      var front := listing[..|listing| - 1];
      PassIsRun(s, front, obs, staleMs);
      var events := PassEvents(listing, obs);
      assert events[..|events| - 1] == PassEvents(front, obs);
      PrunedKeepsSessions(s);
    }
  }

  lemma PrunedKeepsSessions(s: State)
    ensures Pruned(s).sessions == s.sessions && Pruned(s).published == s.published
  {
  }

  /** How often the prompt `name` of session `id` has been answered. */
  function AnswerCount(published: seq<Published>, id: Id, name: string): nat {
    if published == [] then 0
    else
      AnswerCount(published[..|published| - 1], id, name)
      + (if published[|published| - 1] == PromptAnswered(id, name) then 1 else 0)
  }

  lemma AnswerCountOfOneMore(published: seq<Published>, event: Published, id: Id, name: string)
    ensures AnswerCount(published + [event], id, name)
         == AnswerCount(published, id, name) + (if event == PromptAnswered(id, name) then 1 else 0)
  {
    assert (published + [event])[..|published|] == published;
  }

  /** What was answered is on the record of attempts for as long as the session lives, and never exceeds the cap. */
  ghost predicate CappedAt(s: State, id: Id, name: string) {
    && Attempts(s.attempts, id, name) <= MAX_AUTO_RESPONSE_ATTEMPTS_PER_PROMPT
    && AnswerCount(s.published, id, name) <= MAX_AUTO_RESPONSE_ATTEMPTS_PER_PROMPT
    && (id in s.sessions && !s.sessions[id].status.Terminal() ==>
          AnswerCount(s.published, id, name) <= Attempts(s.attempts, id, name))
    && (id !in s.sessions ==> AnswerCount(s.published, id, name) == 0)
  }

  ghost predicate AnswersAreCapped(s: State) {
    forall id, name :: CappedAt(s, id, name)
  }

  lemma AttemptsAfterCount(attempts: map<Id, map<string, nat>>, id: Id, name: string, id': Id, name': string)
    ensures Attempts(CountAttempt(attempts, id, name), id', name')
         == Attempts(attempts, id', name') + (if id == id' && name == name' then 1 else 0)
  {
  }

  /** What one look publishes: at most one event, and an answer only after counting it. */
  lemma LookPublishes(s: State, id: Id, obs: Observation, staleMs: int) returns (event: Option<Published>)
    requires id in s.sessions
    ensures var r := Reconcile(s, id, obs, staleMs);
            && r.published == (match event case None => s.published case Some(e) => s.published + [e])
            && (event.Some? && event.value.PromptAnswered? ==>
                  && event.value.id == id && !s.sessions[id].status.Terminal()
                  && Attempts(s.attempts, id, event.value.name) < MAX_AUTO_RESPONSE_ATTEMPTS_PER_PROMPT
                  && r.attempts == CountAttempt(s.attempts, id, event.value.name))
  {
    hide InferSessionStatus, LogFileChanged, ForgetLogSize, CountAttempt;
    var r := Reconcile(s, id, obs, staleMs);
    assert s.published + [] == s.published;
    event := if |r.published| == |s.published| then None else Some(r.published[|s.published|]);
  }

  /** A look never takes back an attempt of a session that stays alive, and never exceeds the cap. */
  lemma LookKeepsAttempts(s: State, id: Id, obs: Observation, staleMs: int, id': Id, name: string)
    requires id in s.sessions && Attempts(s.attempts, id', name) <= MAX_AUTO_RESPONSE_ATTEMPTS_PER_PROMPT
    ensures var r := Reconcile(s, id, obs, staleMs);
            && r.sessions.Keys == s.sessions.Keys
            && Attempts(r.attempts, id', name) <= MAX_AUTO_RESPONSE_ATTEMPTS_PER_PROMPT
            && (id' in s.sessions && !r.sessions[id'].status.Terminal() ==>
                  && !s.sessions[id'].status.Terminal()
                  && Attempts(r.attempts, id', name) >= Attempts(s.attempts, id', name))
  {
    hide InferSessionStatus, LogFileChanged, ForgetLogSize, CountAttempt;
    if obs.capture.Screen? && obs.capture.prompt.Some? {
      AttemptsAfterCount(s.attempts, id, obs.capture.prompt.value.name, id', name);
    }
  }

  lemma LookKeepsCap(s: State, id: Id, obs: Observation, staleMs: int)
    requires AnswersAreCapped(s) && id in s.sessions
    ensures AnswersAreCapped(Reconcile(s, id, obs, staleMs))
  {
    hide Reconcile, Attempts, CountAttempt;
    var r := Reconcile(s, id, obs, staleMs);
    var event := LookPublishes(s, id, obs, staleMs);
    forall id', name
      ensures CappedAt(r, id', name)
    {
      assert CappedAt(s, id', name);
      LookKeepsAttempts(s, id, obs, staleMs, id', name);
      if event.Some? {
        hide AnswerCount;
        AnswerCountOfOneMore(s.published, event.value, id', name);
        if event.value.PromptAnswered? {
          AttemptsAfterCount(s.attempts, id, event.value.name, id', name);
        }
      }
    }
  }

  lemma PruneKeepsCap(s: State)
    requires AnswersAreCapped(s)
    ensures AnswersAreCapped(Pruned(s))
  {
    forall id, name
      ensures CappedAt(Pruned(s), id, name)
    {
      assert CappedAt(s, id, name);
    }
  }

  /** A server that has just started: empty caches, nothing published. */
  predicate JustStarted(s: State) {
    s.logSizes == map[] && s.attempts == map[] && s.published == []
  }

  lemma {:induction false} RunKeepsCap(s: State, events: seq<Event>, staleMs: int)
    requires JustStarted(s)
    ensures AnswersAreCapped(Run(s, events, staleMs))
  {
    hide Reconcile, Pruned, AnswersAreCapped;
    if events == [] {
      StartIsCapped(s);
    } else {
      RunKeepsCap(s, events[..|events| - 1], staleMs);
      var before := Run(s, events[..|events| - 1], staleMs);
      match events[|events| - 1] {
        case Prune => PruneKeepsCap(before);
        case Look(id, obs) =>
          if id in before.sessions {
            LookKeepsCap(before, id, obs, staleMs);
          }
      }
    }
  }

  lemma StartIsCapped(s: State)
    requires JustStarted(s)
    ensures AnswersAreCapped(s)
  {
  }

  /** Over any sequence of passes, no prompt of a session is answered more than twice. */
  lemma AnsweredAtMostTwice(s: State, events: seq<Event>, staleMs: int, id: Id, name: string)
    requires JustStarted(s)
    ensures AnswerCount(Run(s, events, staleMs).published, id, name) <= 2
  {
    RunKeepsCap(s, events, staleMs);
    assert CappedAt(Run(s, events, staleMs), id, name);
  }

  lemma LookLeavesTerminal(s: State, seen: Id, obs: Observation, staleMs: int, id: Id)
    requires seen in s.sessions && id in s.sessions && s.sessions[id].status.Terminal()
    ensures id in Reconcile(s, seen, obs, staleMs).sessions && Reconcile(s, seen, obs, staleMs).sessions[id] == s.sessions[id]
  {
    hide InferSessionStatus, CountAttempt, ForgetLogSize, LogFileChanged;
  }

  lemma StepLeavesTerminal(s: State, e: Event, staleMs: int, id: Id)
    requires id in s.sessions && s.sessions[id].status.Terminal()
    ensures id in Step(s, e, staleMs).sessions && Step(s, e, staleMs).sessions[id] == s.sessions[id]
  {
    hide Reconcile;
    if e.Look? && e.id in s.sessions {
      LookLeavesTerminal(s, e.id, e.obs, staleMs, id);
    }
  }

  /** A session that is terminal keeps its whole record, whatever later passes see. */
  lemma {:induction false} TerminalIsAbsorbing(s: State, events: seq<Event>, staleMs: int, id: Id)
    requires id in s.sessions && s.sessions[id].status.Terminal()
    ensures id in Run(s, events, staleMs).sessions && Run(s, events, staleMs).sessions[id] == s.sessions[id]
  {
    hide Step;
    if events != [] {
      var front := events[..|events| - 1];
      TerminalIsAbsorbing(s, front, staleMs, id);
      StepLeavesTerminal(Run(s, front, staleMs), events[|events| - 1], staleMs, id);
    }
  }

  // ----- The stale watchdog -----

  /** The look moves `lastOutputAt` of a session that stays alive although its log is not known to have grown. */
  predicate SilentAdvance(s: State, e: Event, staleMs: int, id: Id) {
    && e.Look? && e.id == id && id in s.sessions
    && var r := Step(s, e, staleMs).sessions[id];
    && !r.status.Terminal() && r.lastOutputAt != s.sessions[id].lastOutputAt
    && !LogFileChanged(s.logSizes, s.sessions[id], e.obs.logSize).1
  }

  function SilentAdvances(s: State, events: seq<Event>, staleMs: int, id: Id): nat {
    if events == [] then 0
    else
      var front := events[..|events| - 1];
      SilentAdvances(s, front, staleMs, id)
      + (if SilentAdvance(Run(s, front, staleMs), events[|events| - 1], staleMs, id) then 1 else 0)
  }

  /** All answers to prompts of `id` whose name is among `names`. */
  function AnswersAmong(published: seq<Published>, id: Id, names: set<string>): nat {
    if published == [] then 0
    else
      var last := published[|published| - 1];
      AnswersAmong(published[..|published| - 1], id, names)
      + (if last.PromptAnswered? && last.id == id && last.name in names then 1 else 0)
  }

  lemma {:induction false} AnswersAmongSplit(published: seq<Published>, id: Id, names: set<string>, name: string)
    requires name in names
    ensures AnswersAmong(published, id, names)
         == AnswersAmong(published, id, names - {name}) + AnswerCount(published, id, name)
  {
    if published != [] {
      AnswersAmongSplit(published[..|published| - 1], id, names, name);
    }
  }

  lemma {:induction false} NoNamesNoAnswers(published: seq<Published>, id: Id)
    ensures AnswersAmong(published, id, {}) == 0
  {
    if published != [] {
      NoNamesNoAnswers(published[..|published| - 1], id);
    }
  }

  lemma {:induction false} AnswersAmongAreCapped(s: State, id: Id, names: set<string>)
    requires AnswersAreCapped(s)
    ensures AnswersAmong(s.published, id, names) <= 2 * |names|
  {
    hide AnswersAmong, AnswerCount;
    if names == {} {
      NoNamesNoAnswers(s.published, id);
    } else {
      var name :| name in names;
      assert CappedAt(s, id, name);
      AnswersAmongSplit(s.published, id, names, name);
      AnswersAmongAreCapped(s, id, names - {name});
    }
  }

  lemma AnswersAmongOfOneMore(published: seq<Published>, event: Published, id: Id, names: set<string>)
    ensures AnswersAmong(published + [event], id, names)
         == AnswersAmong(published, id, names)
            + (if event.PromptAnswered? && event.id == id && event.name in names then 1 else 0)
  {
    assert (published + [event])[..|published|] == published;
  }

  /** The only way to move `lastOutputAt` silently is to answer a prompt. */
  lemma SilentAdvanceAnswers(s: State, e: Event, staleMs: int, id: Id, names: set<string>)
    requires e.Look? && e.obs.capture.Screen? && e.obs.capture.prompt.Some? ==> e.obs.capture.prompt.value.name in names
    ensures AnswersAmong(Step(s, e, staleMs).published, id, names)
         >= AnswersAmong(s.published, id, names) + (if SilentAdvance(s, e, staleMs, id) then 1 else 0)
  {
    hide AnswersAmong;
    if e.Look? && e.id in s.sessions {
      SilentAdvancePublishes(s, e.id, e.obs, staleMs);
      var event := LookPublishes(s, e.id, e.obs, staleMs);
      hide Reconcile;
      if event.Some? {
        AnswersAmongOfOneMore(s.published, event.value, id, names);
      }
    }
  }

  lemma SilentAdvancePublishes(s: State, id: Id, obs: Observation, staleMs: int)
    requires id in s.sessions
    ensures SilentAdvance(s, Look(id, obs), staleMs, id) ==>
              && obs.capture.Screen? && obs.capture.prompt.Some?
              && var after := Reconcile(s, id, obs, staleMs).published;
              |after| == |s.published| + 1 && after[|s.published|] == PromptAnswered(id, obs.capture.prompt.value.name)
  {
    hide InferSessionStatus, CountAttempt, ForgetLogSize, LogFileChanged;
  }

  /** Every prompt any look finds has a name among `names`. */
  predicate PromptsAmong(events: seq<Event>, names: set<string>) {
    forall e <- events ::
      e.Look? && e.obs.capture.Screen? && e.obs.capture.prompt.Some? ==> e.obs.capture.prompt.value.name in names
  }

  lemma {:induction false} SilentAdvancesAreAnswers(s: State, events: seq<Event>, staleMs: int, id: Id, names: set<string>)
    requires PromptsAmong(events, names)
    ensures SilentAdvances(s, events, staleMs, id) <= AnswersAmong(Run(s, events, staleMs).published, id, names)
  {
    hide SilentAdvance, Step, AnswersAmong;
    if events != [] {
      var front := events[..|events| - 1];
      assert forall e <- front :: e in events;
      SilentAdvancesAreAnswers(s, front, staleMs, id, names);
      assert events[|events| - 1] in events;
      SilentAdvanceAnswers(Run(s, front, staleMs), events[|events| - 1], staleMs, id, names);
    }
  }

  /**
   * Answering prompts cannot keep a stuck session looking alive: while its log does not grow,
   * `lastOutputAt` moves at most twice per prompt name, over any number of passes.
   */
  lemma SilentAdvancesAreBounded(s: State, events: seq<Event>, staleMs: int, id: Id, names: set<string>)
    requires JustStarted(s) && PromptsAmong(events, names)
    ensures SilentAdvances(s, events, staleMs, id) <= 2 * |names|
  {
    SilentAdvancesAreAnswers(s, events, staleMs, id, names);
    RunKeepsCap(s, events, staleMs);
    AnswersAmongAreCapped(Run(s, events, staleMs), id, names);
  }
}
