/**
 * The facade channel as the outside sees it: what clients asked, what fixtures printed, what clients read, told by
 * the events of a run.
 */
module FacadeEvents {
  import opened Common
  import opened FacadeWire
  import opened Facade
  import opened FacadeProof
  import opened FacadeProgress

  /** The text of the request with this id. */
  predicate Asked(events: seq<Event>, id: Id, text: string) {
    Start(id, text) in events
  }

  predicate Sent(events: seq<Event>, id: Id) {
    MoveRequest(id) in events
  }

  function LinesRead(events: seq<Event>, id: Id): nat {
    if events == [] then 0
    else LinesRead(events[..|events| - 1], id) + (if events[|events| - 1] == ReadLine(id) then 1 else 0)
  }

  // ----- Clients -----

  /** Where a client is, by its own events. */
  ghost predicate ClientTells(id: Id, client: Client, events: seq<Event>) {
    && Asked(events, id, client.text)
    && (client.phase.Writing? <==> !Sent(events, id))
    && (client.phase.GaveUp? <==> GiveUp(id) in events)
    && (client.phase.Reading? <==> Notice(id) in events)
    && (client.phase.Reading? ==> |client.phase.lines| == LinesRead(events, id))
    && (!client.phase.Reading? ==> LinesRead(events, id) == 0)
  }

  ghost predicate NoClient(id: Id, events: seq<Event>) {
    && (forall text :: !Asked(events, id, text))
    && !Sent(events, id) && GiveUp(id) !in events && Notice(id) !in events && LinesRead(events, id) == 0
  }

  ghost predicate ClientsTell(clients: map<Id, Client>, events: seq<Event>) {
    forall id :: if id in clients then ClientTells(id, clients[id], events) else NoClient(id, events)
  }

  /** What one step does to a client. */
  lemma StepOfClient(s: State, e: Event, host: Host, id: Id)
    requires Enabled(s, e)
    ensures var after := Step(s, e, host).clients;
            && (id in after <==> id in s.clients || (e.Start? && e.id == id))
            && (e.Start? && e.id == id ==> id !in s.clients && after[id] == Client(e.text, Writing))
            && (id in s.clients ==>
                  && after[id].text == s.clients[id].text
                  && after[id].phase ==
                     if e == MoveRequest(id) || (e.GiveUp? && e.id == id) || e == Notice(id) || e == ReadLine(id)
                     then after[id].phase else s.clients[id].phase)
            && (e == MoveRequest(id) ==> id in s.clients && s.clients[id].phase.Writing? && after[id].phase.Waiting?)
            && (e == GiveUp(id) ==> id in s.clients && s.clients[id].phase.Waiting? && after[id].phase.GaveUp?)
            && (e == Notice(id) ==> id in s.clients && s.clients[id].phase.Waiting? && after[id].phase == Reading([]))
            && (e == ReadLine(id) ==>
                  && id in s.clients && s.clients[id].phase.Reading? && after[id].phase.Reading?
                  && |after[id].phase.lines| == |s.clients[id].phase.lines| + 1)
  {
    hide ResponseBody, LineOf, Renamed, Requests, EndExecution, Chosen;
    if e.Choose? {
      assert Chosen(s, e.poll).clients == s.clients by {
        ChosenLeavesFiles(s, e.poll);
      }
    }
  }

  lemma OneMoreEvent(front: seq<Event>, e: Event, id: Id)
    ensures var events := front + [e];
            && (forall text :: Asked(events, id, text) <==> Asked(front, id, text) || e == Start(id, text))
            && (Sent(events, id) <==> Sent(front, id) || e == MoveRequest(id))
            && (GiveUp(id) in events <==> GiveUp(id) in front || e == GiveUp(id))
            && (Notice(id) in events <==> Notice(id) in front || e == Notice(id))
            && LinesRead(events, id) == LinesRead(front, id) + (if e == ReadLine(id) then 1 else 0)
  {
    assert (front + [e])[..|front|] == front;
  }

  lemma ClientStepTells(s: State, front: seq<Event>, e: Event, host: Host, id: Id)
    requires Enabled(s, e)
    requires if id in s.clients then ClientTells(id, s.clients[id], front) else NoClient(id, front)
    ensures var after := Step(s, e, host).clients;
            if id in after then ClientTells(id, after[id], front + [e]) else NoClient(id, front + [e])
  {
    StepOfClient(s, e, host, id);
    OneMoreEvent(front, e, id);
    hide Step, Enabled, Asked, Sent, LinesRead;
  }

  lemma {:induction false} ClientsTellTheirEvents(events: seq<Event>, host: Host)
    requires Run(events, host).Some?
    ensures ClientsTell(Run(events, host).value.clients, events)
  {
    hide Step, Enabled, ClientTells, NoClient;
    if events == [] {
      forall id
        ensures NoClient(id, [])
      {
        NobodyAtFirst(id);
      }
    } else {
      var front, e := events[..|events| - 1], events[|events| - 1];
      ClientsTellTheirEvents(front, host);
      assert events == front + [e];
      forall id
        ensures var after := Run(events, host).value.clients;
                if id in after then ClientTells(id, after[id], events) else NoClient(id, events)
      {
        ClientStepTells(Run(front, host).value, front, e, host, id);
      }
    }
  }

  lemma NobodyAtFirst(id: Id)
    ensures NoClient(id, [])
  {
  }

  lemma ClientTellsOf(events: seq<Event>, host: Host, id: Id)
    requires Run(events, host).Some?
    ensures var clients := Run(events, host).value.clients;
            if id in clients then ClientTells(id, clients[id], events) else NoClient(id, events)
  {
    ClientsTellTheirEvents(events, host);
  }

  // ----- Fixtures -----

  /** The `k`-th event is the end of the fixture that ran request `r` of this id, with this outcome. */
  ghost predicate FixtureEnds(events: seq<Event>, host: Host, k: nat, id: Id, r: Request, outcome: Outcome) {
    && k < |events| && Run(events[..k], host).Some?
    && events[k].FixtureExit? && events[k].outcome == outcome
    && var polls := Run(events[..k], host).value.polls;
       events[k].poll < |polls| && polls[events[k].poll].work == Running(id, r)
  }

  ghost predicate Ended(events: seq<Event>, host: Host, x: Execution) {
    x.result.Some? ==> exists k :: FixtureEnds(events, host, k, x.id, x.request, x.result.value)
  }

  /** What a step does to the executions: one more, or one that gets its outcome. */
  lemma StepOfExecutions(s: State, e: Event, host: Host, x: Execution)
    requires Inv(s, host) && Enabled(s, e) && x in Step(s, e, host).executions
    ensures || x in s.executions || x.result.None?
            || (e.FixtureExit? && x.result == Some(e.outcome) && s.polls[e.poll].work == Running(x.id, x.request))
  {
    hide ResponseBody, LineOf, Renamed, Requests, EndExecution, FilesAreSound, ClientsAreSound, ProgressIsSound,
      PollsAreSound, WorkIsSound, AnswersAreRight;
    if e.Choose? {
      ChosenLeavesFiles(s, e.poll);
    } else if e.FixtureExit? {
      var id := s.polls[e.poll].work.id;
      EndExecutionAt(s.executions, id, e.outcome);
      var k :| 0 <= k < |s.executions| && Step(s, e, host).executions[k] == x;
      assert s.executions[k] in s.executions;
      assert ExecutionIsSound(s.executions[k], s.clients, s.seen, CurrentWork(s.polls), host);
    }
  }

  lemma {:induction false} ExecutionsEnded(events: seq<Event>, host: Host)
    requires Run(events, host).Some?
    ensures forall x <- Run(events, host).value.executions :: Ended(events, host, x)
  {
    hide Inv, Step, Enabled;
    if events != [] {
      var front, e := events[..|events| - 1], events[|events| - 1];
      ExecutionsEnded(front, host);
      ReachableInv(front, host);
      var s := Run(front, host).value;
      forall x | x in Run(events, host).value.executions
        ensures Ended(events, host, x)
      {
        StepOfExecutions(s, e, host, x);
        if x in s.executions && x.result.Some? {
          var k: nat :| FixtureEnds(front, host, k, x.id, x.request, x.result.value);
          assert events[..k] == front[..k];
          assert FixtureEnds(events, host, k, x.id, x.request, x.result.value);
        } else if x.result.Some? {
          RunningIsEnabled(s, e, host);
          assert FixtureEnds(events, host, |front|, x.id, x.request, x.result.value);
        }
      }
    }
  }

  lemma RunningIsEnabled(s: State, e: Event, host: Host)
    requires Enabled(s, e)
    ensures e.FixtureExit? ==> e.poll < |s.polls|
  {
  }

  ghost predicate HasFinished(s: State, id: Id) {
    exists x <- s.executions :: x.id == id && x.result.Some?
  }

  lemma FinishedStays(s: State, e: Event, host: Host, id: Id)
    requires Enabled(s, e) && HasFinished(s, id)
    ensures HasFinished(Step(s, e, host), id)
  {
    hide ResponseBody, LineOf, Renamed, Requests, EndExecution, Chosen;
    var x :| x in s.executions && x.id == id && x.result.Some?;
    if e.Choose? {
      ChosenLeavesFiles(s, e.poll);
    } else if e.FixtureExit? {
      EndExecutionAt(s.executions, s.polls[e.poll].work.id, e.outcome);
      var k :| 0 <= k < |s.executions| && s.executions[k] == x;
      assert Step(s, e, host).executions[k] == x;
    }
    assert x in Step(s, e, host).executions;
  }

  lemma {:induction false} FinishedStaysFinishedAfter(events: seq<Event>, host: Host, k: nat, id: Id)
    requires k <= |events| && Run(events, host).Some? && Run(events[..k], host).Some?
    requires HasFinished(Run(events[..k], host).value, id)
    ensures HasFinished(Run(events, host).value, id)
  {
    hide Step, Enabled, HasFinished;
    if k == |events| {
      assert events[..k] == events;
    } else {
      var front := events[..|events| - 1];
      assert front[..k] == events[..k];
      FinishedStaysFinishedAfter(front, host, k, id);
      FinishedStays(Run(front, host).value, events[|events| - 1], host, id);
    }
  }

  lemma ExitFinishes(s: State, i: nat, outcome: Outcome, host: Host)
    requires Inv(s, host) && Enabled(s, FixtureExit(i, outcome))
    ensures HasFinished(Step(s, FixtureExit(i, outcome), host), s.polls[i].work.id)
    ensures !HasFinished(s, s.polls[i].work.id)
  {
    hide ResponseBody, EndExecution, FilesAreSound, ClientsAreSound, ProgressIsSound, PollsAreSound, WorkIsSound,
      AnswersAreRight;
    var work := s.polls[i].work;
    EndExecutionAt(s.executions, work.id, outcome);
    var k :| 0 <= k < |s.executions| && s.executions[k] == Execution(work.id, work.request, None);
    var after := Step(s, FixtureExit(i, outcome), host).executions;
    assert after[k] == Execution(work.id, work.request, Some(outcome));
    assert after[k] in after;
    forall x <- s.executions | x.id == work.id
      ensures x.result.None?
    {
      var l :| 0 <= l < |s.executions| && s.executions[l] == x;
    }
  }

  lemma {:induction false} PrefixRuns(events: seq<Event>, host: Host, k: nat)
    requires k <= |events| && Run(events, host).Some?
    ensures Run(events[..k], host).Some?
    ensures k < |events| ==> Enabled(Run(events[..k], host).value, events[k])
                             && Run(events[..k + 1], host) == Some(Step(Run(events[..k], host).value, events[k], host))
  {
    hide Step, Enabled;
    if k == |events| {
      assert events[..k] == events;
    } else {
      var front := events[..|events| - 1];
      if k == |events| - 1 {
        assert events[..k + 1] == events && events[..k + 1][..k] == front;
      } else {
        assert front[..k] == events[..k] && front[..k + 1] == events[..k + 1] && front[k] == events[k];
        PrefixRuns(front, host, k);
      }
    }
  }

  /** Where a fixture ends, its request has an outcome that it did not have before. */
  lemma EndIsFirst(events: seq<Event>, host: Host, k: nat, id: Id, r: Request, o: Outcome)
    requires Run(events, host).Some? && FixtureEnds(events, host, k, id, r, o)
    ensures Run(events[..k], host).Some? && !HasFinished(Run(events[..k], host).value, id)
    ensures Run(events[..k + 1], host).Some? && HasFinished(Run(events[..k + 1], host).value, id)
  {
    hide Run, Step, Enabled, Inv, HasFinished;
    PrefixRuns(events, host, k);
    ReachableInv(events[..k], host);
    ExitFinishes(Run(events[..k], host).value, events[k].poll, events[k].outcome, host);
  }

  lemma LaterEndIsNone(
      events: seq<Event>, host: Host, k: nat, l: nat, id: Id, r: Request, r': Request, o: Outcome, o': Outcome)
    requires Run(events, host).Some? && FixtureEnds(events, host, k, id, r, o)
    requires FixtureEnds(events, host, l, id, r', o')
    ensures l <= k
  {
    EndIsFirst(events, host, k, id, r, o);
    EndIsFirst(events, host, l, id, r', o');
    hide Run, FixtureEnds, HasFinished;
    if k < l {
      assert events[..l][..k + 1] == events[..k + 1];
      FinishedStaysFinishedAfter(events[..l], host, k + 1, id);
    }
  }

  /** No request has its fixture end twice. */
  lemma FixtureEndsOnce(
      events: seq<Event>, host: Host, k: nat, l: nat, id: Id, r: Request, r': Request, o: Outcome, o': Outcome)
    requires Run(events, host).Some?
    requires FixtureEnds(events, host, k, id, r, o) && FixtureEnds(events, host, l, id, r', o')
    ensures k == l
  {
    hide Run, FixtureEnds;
    LaterEndIsNone(events, host, k, l, id, r, r', o, o');
    LaterEndIsNone(events, host, l, k, id, r', r, o', o);
  }

  // ----- Answers -----

  /** What the client must end with: bytes for standard output and error, and an exit code. */
  ghost predicate IsRightAnswer(events: seq<Event>, host: Host, id: Id, text: string, seen: Observed) {
    match host.parse(text)
    case None => seen == Observed([], host.unreadableText(text), 98)
    case Some(r) =>
      if r.command == None || r.command.value !in host.available then seen == Observed([], host.unknownText, 127)
      else
        exists k, outcome ::
          && FixtureEnds(events, host, k, id, r, outcome)
          && seen == Observed(outcome.stdout, outcome.stderr,
                              if outcome.exitStatus.Some? then outcome.exitStatus.value else 98)
  }

  /**
   * Whatever runs in between, a client that has read its three lines has, byte for byte, what the fixture printed
   * when it was run for this very request - with the command and the arguments that the client wrote - or the
   * error that the text it wrote deserves.
   */
  lemma ClientGetsItsOwnAnswer(events: seq<Event>, host: Host, id: Id, text: string)
    requires Run(events, host).Some? && Asked(events, id, text) && LinesRead(events, id) == 3
    ensures var clients := Run(events, host).value.clients;
            && id in clients && clients[id].phase.Reading? && |clients[id].phase.lines| == 3
            && var lines := clients[id].phase.lines;
               var seen := Observe(lines[0], lines[1], lines[2]);
               seen.Some? && IsRightAnswer(events, host, id, text, seen.value)
  {
    ClientTellsOf(events, host, id);
    AskedOnce(events, host, id, text);
    var s := Run(events, host).value;
    hide Run, Observe;
    ClientObservesItsOwnAnswer(events, host, id);
    ExecutionsEnded(events, host);
    var outcome := s.answers[id];
    match host.parse(text) {
      case None =>
      case Some(r) =>
        if host.Knows(r) {
          var k: nat :| FixtureEnds(events, host, k, id, r, outcome);
        }
    }
  }

  /** An id is asked for once. */
  lemma {:induction false} AskedOnce(events: seq<Event>, host: Host, id: Id, text: string)
    requires Run(events, host).Some? && Asked(events, id, text)
    ensures id in Run(events, host).value.clients && Run(events, host).value.clients[id].text == text
  {
    hide Step, Enabled;
    var front, e := events[..|events| - 1], events[|events| - 1];
    assert events == front + [e];
    StepOfClient(Run(front, host).value, e, host, id);
    if e != Start(id, text) {
      assert Asked(front, id, text);
      AskedOnce(front, host, id, text);
    }
  }

  // ----- What can happen next -----

  lemma RunOneMore(events: seq<Event>, e: Event, host: Host)
    requires Run(events, host).Some?
    ensures Run(events + [e], host)
         == if Enabled(Run(events, host).value, e) then Some(Step(Run(events, host).value, e, host)) else None
  {
    hide Enabled, Step;
    assert (events + [e])[..|events|] == events;
  }

  /** An id that nobody has can be taken. */
  lemma AnyoneCanAsk(events: seq<Event>, host: Host, id: Id, text: string)
    requires Run(events, host).Some? && forall t :: !Asked(events, id, t)
    ensures Run(events + [Start(id, text)], host).Some?
  {
    hide Run, LinesRead, Sent, Step, Asked;
    ClientTellsOf(events, host, id);
    RunOneMore(events, Start(id, text), host);
  }

  /** What was asked can be written out and sent. */
  lemma AskedCanBeSent(events: seq<Event>, host: Host, id: Id, text: string)
    requires Run(events, host).Some? && Asked(events, id, text) && !Sent(events, id)
    ensures Run(events + [WriteRequest(id, |text|)] + [MoveRequest(id)], host).Some?
  {
    hide Run, LinesRead, Sent, Step, Asked, Enabled;
    ClientTellsOf(events, host, id);
    AskedOnce(events, host, id, text);
    var s := Run(events, host).value;
    WritableAndMovable(s, host, id, text);
    RunOneMore(events, WriteRequest(id, |text|), host);
    RunOneMore(events + [WriteRequest(id, |text|)], MoveRequest(id), host);
  }

  lemma WritableAndMovable(s: State, host: Host, id: Id, text: string)
    requires Has(s, id, Writing) && s.clients[id].text == text
    ensures Enabled(s, WriteRequest(id, |text|))
    ensures Enabled(Step(s, WriteRequest(id, |text|), host), MoveRequest(id))
  {
    assert text[..|text|] == text;
  }

  /** A client that has not given up notices its response once it is there, and reads all three lines of it. */
  lemma ResponseCanBeRead(events: seq<Event>, host: Host, id: Id)
    requires Run(events, host).Some?
    ensures (Sent(events, id) && GiveUp(id) !in events && Notice(id) !in events
             && ResponseFile(id) in Run(events, host).value.files) ==>
              Run(events + [Notice(id)], host).Some?
    ensures Notice(id) in events && LinesRead(events, id) < 3 ==> Run(events + [ReadLine(id)], host).Some?
  {
    hide Run, Inv, LinesRead, Sent, Step, Asked;
    ClientTellsOf(events, host, id);
    ReachableInv(events, host);
    var s := Run(events, host).value;
    RunOneMore(events, Notice(id), host);
    RunOneMore(events, ReadLine(id), host);
    if Notice(id) in events {
      ReaderHasResponse(s, host, id);
    }
  }

  lemma ReaderHasResponse(s: State, host: Host, id: Id)
    requires Inv(s, host) && id in s.clients && s.clients[id].phase.Reading?
    ensures ResponseFile(id) in s.files
  {
    assert ClientIsSound(id, s.clients[id], s.files, s.answers);
  }

  lemma {:induction false} StoppedExactly(events: seq<Event>, host: Host)
    requires Run(events, host).Some?
    ensures Run(events, host).value.stopped <==> Stop in events
  {
    hide Step, Enabled;
    if events != [] {
      var front, e := events[..|events| - 1], events[|events| - 1];
      assert events == front + [e];
      StoppedExactly(front, host);
      StepOfStopped(Run(front, host).value, e, host);
    }
  }

  lemma StepOfStopped(s: State, e: Event, host: Host)
    requires Enabled(s, e)
    ensures Step(s, e, host).stopped <==> s.stopped || e == Stop
  {
    hide ResponseBody, LineOf, Renamed, Requests, EndExecution, Chosen;
    if e.Choose? {
      ChosenKeepsStopped(s, e.poll);
    }
  }

  lemma ChosenKeepsStopped(s: State, i: nat)
    requires i < |s.polls|
    ensures Chosen(s, i).stopped == s.stopped
  {
  }

  /** A tick starts a poll unless one is in progress or the broker was stopped. */
  lemma TickStartsPoll(events: seq<Event>, host: Host)
    requires Run(events, host).Some?
    ensures Run(events + [Tick], host).Some?
    ensures var polls := Run(events, host).value.polls;
            Run(events + [Tick], host).value.polls
            == if polls != [] || Stop in events then polls else [Poll({}, [], Listing)]
  {
    var s := Run(events, host).value;
    hide Run, FilesAreSound, ClientsAreSound, ProgressIsSound, PollsAreSound, ExecutionsAreSound, WorkIsSound,
      AnswersAreRight;
    ReachableInv(events, host);
    StoppedExactly(events, host);
    RunOneMore(events, Tick, host);
    assert s.polls == [] ==> s.polls + [Poll({}, [], Listing)] == [Poll({}, [], Listing)];
  }

  lemma ListLists(s: State, i: nat, order: seq<Id>, host: Host)
    requires OnePoll(s.polls, s.draining) && Enabled(s, List(i, order))
    ensures Step(s, List(i, order), host).polls == [Poll(Requests(s.files), order, Choosing)]
  {
    hide Requests;
  }

  /** A poll past its listing, after the step, was past the same listing before it. */
  ghost predicate SameListing(before: seq<Poll>, after: seq<Poll>) {
    after != [] && !after[0].work.Listing? ==>
      before != [] && !before[0].work.Listing? && after[0].listed == before[0].listed
  }

  lemma ChooseKeepsListing(s: State, i: nat, host: Host)
    requires OnePoll(s.polls, s.draining) && Enabled(s, Choose(i))
    ensures SameListing(s.polls, Step(s, Choose(i), host).polls)
  {
    StepIsChosen(s, i, host);
    hide Step;
  }

  lemma WorkKeepsListing(s: State, e: Event, host: Host)
    requires OnePoll(s.polls, s.draining) && Enabled(s, e)
    requires e.ReadRequest? || e.RemoveRequest? || e.CheckCommand? || e.FixtureExit? || e.MoveResponse?
    ensures SameListing(s.polls, Step(s, e, host).polls)
  {
    hide ResponseBody, Requests, Renamed, EndExecution, LineOf, Chosen;
    if e.ReadRequest? {
      ReadKeepsListing(s, e.poll, host);
    } else if e.CheckCommand? {
      CheckKeepsListing(s, e.poll, host);
    }
  }

  lemma ReadKeepsListing(s: State, i: nat, host: Host)
    requires OnePoll(s.polls, s.draining) && Enabled(s, ReadRequest(i))
    ensures SameListing(s.polls, Step(s, ReadRequest(i), host).polls)
  {
    hide ResponseBody, Requests, Renamed, EndExecution, LineOf, Chosen;
  }

  lemma CheckKeepsListing(s: State, i: nat, host: Host)
    requires OnePoll(s.polls, s.draining) && Enabled(s, CheckCommand(i))
    ensures SameListing(s.polls, Step(s, CheckCommand(i), host).polls)
  {
    hide ResponseBody, Requests, Renamed, EndExecution, LineOf, Chosen;
  }

  lemma TickKeepsListing(s: State, host: Host)
    requires OnePoll(s.polls, s.draining)
    ensures SameListing(s.polls, Step(s, Tick, host).polls)
  {
  }

  lemma StepOfListing(s: State, e: Event, host: Host)
    requires OnePoll(s.polls, s.draining) && Enabled(s, e)
    ensures e.List? ==> Step(s, e, host).polls == [Poll(Requests(s.files), e.order, Choosing)]
    ensures !e.List? ==> SameListing(s.polls, Step(s, e, host).polls)
  {
    hide Step, Enabled, Requests;
    if e.List? {
      ListLists(s, e.poll, e.order, host);
    } else if e.Choose? {
      ChooseKeepsListing(s, e.poll, host);
    } else if e.Tick? {
      TickKeepsListing(s, host);
    } else if IsProgress(e) {
      WorkKeepsListing(s, e, host);
    } else {
      OthersLeavePolls(s, e, host);
    }
  }

  lemma StepKeepsResponses(s: State, e: Event, host: Host, id: Id)
    requires Enabled(s, e) && ResponseFile(id) in s.files
    ensures ResponseFile(id) in Step(s, e, host).files
  {
    hide ResponseBody, LineOf, Requests, EndExecution, Chosen;
    if e.Choose? {
      ChosenLeavesFiles(s, e.poll);
    }
  }

  /** While no other listing comes, a poll past its listing still has that one; responses stay. */
  lemma {:induction false} SinceListing(events: seq<Event>, host: Host, b: nat, id: Id)
    requires b < |events| && Run(events, host).Some? && Run(events[..b], host).Some?
    requires events[b].List? && forall c | b < c < |events| :: !events[c].List?
    ensures var polls := Run(events, host).value.polls;
            polls != [] && !polls[0].work.Listing? ==> polls[0].listed == Requests(Run(events[..b], host).value.files)
    ensures ResponseFile(id) in Run(events[..b], host).value.files ==> ResponseFile(id) in Run(events, host).value.files
  {
    hide Inv, Step, Enabled;
    var front, e := events[..|events| - 1], events[|events| - 1];
    ReachableInv(front, host);
    HasOnePoll(Run(front, host).value, host);
    StepOfListing(Run(front, host).value, e, host);
    if b == |events| - 1 {
      assert events[..b] == front;
    } else {
      assert front[..b] == events[..b];
      SinceListing(front, host, b, id);
    }
    if ResponseFile(id) in Run(front, host).value.files {
      StepKeepsResponses(Run(front, host).value, e, host, id);
    }
  }

  /**
   * A poll answers everything that had been sent before it listed the directory: when it has come to the end of its
   * list, stopped or not, each of those requests has its response.
   */
  lemma PollAnswersWhatWasSent(events: seq<Event>, host: Host, b: nat, id: Id)
    requires Run(events, host).Some? && b < |events|
    requires events[b].List? && forall c | b < c < |events| :: !events[c].List?
    requires Sent(events[..b], id)
    requires var polls := Run(events, host).value.polls; polls != [] && polls[0].work.Choosing? && polls[0].todo == []
    ensures ResponseFile(id) in Run(events, host).value.files
  {
    hide Run, Inv, Step, Enabled, Requests;
    PrefixRuns(events, host, b);
    SinceListing(events, host, b, id);
    ClientTellsOf(events[..b], host, id);
    var s := Run(events[..b], host).value;
    NoRequestIsLost(events[..b], host, id);
    ReachableInv(events[..b], host);
    ListingIsIdle(s, events[b], host);
    if ResponseFile(id) !in s.files {
      RequestsMembers(s.files, id);
      PollAnswersWhatItListed(events, host, id);
    }
  }

  lemma ListingIsIdle(s: State, e: Event, host: Host)
    requires Inv(s, host) && Enabled(s, e) && e.List?
    ensures CurrentWork(s.polls).Current() == None
  {
    hide FilesAreSound, ClientsAreSound, ProgressIsSound, PollsAreSound, ExecutionsAreSound, WorkIsSound, AnswersAreRight;
  }
}
