/** Every step of the facade channel keeps its invariant, and what follows for whole runs. */
module FacadeProof {
  import opened Common
  import opened FacadeWire
  import opened Facade

  // ----- What every reachable state satisfies -----

  /** The `draining` flag is exactly the presence of a poll, so there is never a second one. */
  ghost predicate OnePoll(polls: seq<Poll>, draining: bool) {
    |polls| == if draining then 1 else 0
  }

  function CurrentWork(polls: seq<Poll>): Work {
    if polls == [] then Listing else polls[0].work
  }

  /** A file is only ever read whole: requests hold the client's text, responses the broker's answer. */
  ghost predicate FileIsSound(f: File, content: string, clients: map<Id, Client>, answers: map<Id, Outcome>) {
    && f.id in clients
    && match f
       case RequestTemp(id) => clients[id].phase.Writing?
       case RequestFile(id) => !clients[id].phase.Writing? && content == clients[id].text
       case ResponseTemp(id) => true
       case ResponseFile(id) => id in answers && content == ResponseBody(answers[id])
  }

  ghost predicate FilesAreSound(files: map<File, string>, clients: map<Id, Client>, answers: map<Id, Outcome>) {
    forall f <- files :: FileIsSound(f, files[f], clients, answers)
  }

  /** What a client has read so far are the first lines of the one answer to its request. */
  ghost predicate ClientIsSound(id: Id, client: Client, files: map<File, string>, answers: map<Id, Outcome>) {
    client.phase.Reading? ==>
      && ResponseFile(id) in files && id in answers && |client.phase.lines| <= 3
      && forall k | 0 <= k < |client.phase.lines| :: client.phase.lines[k] == LineOf(ResponseBody(answers[id]), k)
  }

  ghost predicate ClientsAreSound(clients: map<Id, Client>, files: map<File, string>, answers: map<Id, Outcome>) {
    forall id <- clients :: ClientIsSound(id, clients[id], files, answers)
  }

  /** A request that was claimed is being handled or has its response; one that was not is still there. */
  ghost predicate ProgressOf(
      id: Id, client: Client, seen: set<Id>, files: map<File, string>, answers: map<Id, Outcome>, work: Work)
  {
    && (client.phase.Writing? ==> id !in seen)
    && (!client.phase.Writing? && id !in seen ==> RequestFile(id) in files)
    && (id in seen && work.Current() != Some(id) ==> id in answers && ResponseFile(id) in files)
    && (work.Current() == Some(id) ==>
          id in seen && ResponseFile(id) !in files && (id in answers <==> work.Responding?))
    && (work == Claimed(id) ==> RequestFile(id) in files)
    && (id in answers ==> id in seen)
  }

  ghost predicate ProgressIsSound(
      clients: map<Id, Client>, seen: set<Id>, files: map<File, string>, answers: map<Id, Outcome>, work: Work)
  {
    && (forall id <- clients :: ProgressOf(id, clients[id], seen, files, answers, work))
    && (forall id <- seen :: id in clients)
    && (forall id <- answers :: id in clients)
    && (work.Current().Some? ==> work.id in clients)
  }

  /** What a poll listed and has not claimed yet is still to come. */
  ghost predicate PollIsSound(poll: Poll, clients: map<Id, Client>, seen: set<Id>) {
    && (forall id <- poll.todo :: id in clients && !clients[id].phase.Writing?)
    && (forall id <- poll.listed :: id in poll.todo || id in seen)
  }

  ghost predicate PollsAreSound(polls: seq<Poll>, clients: map<Id, Client>, seen: set<Id>) {
    forall i | 0 <= i < |polls| :: PollIsSound(polls[i], clients, seen)
  }

  ghost predicate ExecutionIsSound(x: Execution, clients: map<Id, Client>, seen: set<Id>, work: Work, host: Host) {
    && x.id in seen && x.id in clients
    && host.parse(clients[x.id].text) == Some(x.request) && host.Knows(x.request)
    && (x.result.None? <==> work == Running(x.id, x.request))
    && !(work.Claimed? && work.id == x.id) && !(work.Parsed? && work.id == x.id) && !(work.Checked? && work.id == x.id)
  }

  /** At most one execution per request, of the command and arguments that request carries. */
  ghost predicate ExecutionsAreSound(
      executions: seq<Execution>, clients: map<Id, Client>, seen: set<Id>, work: Work, host: Host)
  {
    && (forall x <- executions :: ExecutionIsSound(x, clients, seen, work, host))
    && (forall i, k | 0 <= i < k < |executions| :: executions[i].id != executions[k].id)
    && (work.Running? ==> Execution(work.id, work.request, None) in executions)
  }

  ghost predicate WorkIsSound(work: Work, clients: map<Id, Client>, host: Host) {
    match work
    case Parsed(id, r) => id in clients && host.parse(clients[id].text) == Some(r)
    case Checked(id, r) => id in clients && host.parse(clients[id].text) == Some(r)
    case Running(id, r) => id in clients && host.parse(clients[id].text) == Some(r) && host.Knows(r)
    case _ => true
  }

  /** The right answer to a request: the outcome of its own execution, or the error it deserves. */
  ghost predicate IsAnswer(id: Id, text: string, outcome: Outcome, executions: seq<Execution>, host: Host) {
    match host.parse(text)
    case None => outcome == host.Unreadable(text)
    case Some(r) =>
      if host.Knows(r) then Execution(id, r, Some(outcome)) in executions else outcome == host.Unknown()
  }

  ghost predicate AnswersAreRight(
      answers: map<Id, Outcome>, clients: map<Id, Client>, executions: seq<Execution>, host: Host)
  {
    forall id <- answers :: id in clients && IsAnswer(id, clients[id].text, answers[id], executions, host)
  }

  ghost predicate Inv(s: State, host: Host) {
    var work := CurrentWork(s.polls);
    && OnePoll(s.polls, s.draining)
    && FilesAreSound(s.files, s.clients, s.answers)
    && ClientsAreSound(s.clients, s.files, s.answers)
    && ProgressIsSound(s.clients, s.seen, s.files, s.answers, work)
    && PollsAreSound(s.polls, s.clients, s.seen)
    && ExecutionsAreSound(s.executions, s.clients, s.seen, work, host)
    && WorkIsSound(work, s.clients, host)
    && AnswersAreRight(s.answers, s.clients, s.executions, host)
  }

  // ----- Every step keeps it -----

  lemma StartKeepsFiles(s: State, id: Id, text: string, host: Host)
    requires Inv(s, host) && Enabled(s, Start(id, text))
    ensures var s' := Step(s, Start(id, text), host);
            && FilesAreSound(s'.files, s'.clients, s'.answers)
            && ClientsAreSound(s'.clients, s'.files, s'.answers)
            && PollsAreSound(s'.polls, s'.clients, s'.seen)
  {
    hide ProgressIsSound, ExecutionsAreSound, WorkIsSound, AnswersAreRight;
  }

  lemma StartKeepsProgress(s: State, id: Id, text: string, host: Host)
    requires Inv(s, host) && Enabled(s, Start(id, text))
    ensures var s' := Step(s, Start(id, text), host);
            ProgressIsSound(s'.clients, s'.seen, s'.files, s'.answers, CurrentWork(s'.polls))
  {
    hide FilesAreSound, ClientsAreSound, PollsAreSound, ExecutionsAreSound, WorkIsSound, AnswersAreRight;
  }

  lemma StartKeepsAnswers(s: State, id: Id, text: string, host: Host)
    requires Inv(s, host) && Enabled(s, Start(id, text))
    ensures var s' := Step(s, Start(id, text), host);
            && OnePoll(s'.polls, s'.draining)
            && ExecutionsAreSound(s'.executions, s'.clients, s'.seen, CurrentWork(s'.polls), host)
            && WorkIsSound(CurrentWork(s'.polls), s'.clients, host)
            && AnswersAreRight(s'.answers, s'.clients, s'.executions, host)
  {
    hide FilesAreSound, ClientsAreSound, PollsAreSound, ProgressIsSound;
  }

  lemma StartKeepsInv(s: State, id: Id, text: string, host: Host)
    requires Inv(s, host) && Enabled(s, Start(id, text))
    ensures Inv(Step(s, Start(id, text), host), host)
  {
    hide Step, OnePoll, FilesAreSound, ClientsAreSound, ProgressIsSound, PollsAreSound, ExecutionsAreSound, WorkIsSound,
      AnswersAreRight;
    StartKeepsFiles(s, id, text, host);
    StartKeepsProgress(s, id, text, host);
    StartKeepsAnswers(s, id, text, host);
  }

  lemma WriteRequestKeepsInv(s: State, id: Id, length: nat, host: Host)
    requires Inv(s, host) && Enabled(s, WriteRequest(id, length))
    ensures Inv(Step(s, WriteRequest(id, length), host), host)
  {
  }

  lemma MoveRequestKeepsInv(s: State, id: Id, host: Host)
    requires Inv(s, host) && Enabled(s, MoveRequest(id))
    ensures Inv(Step(s, MoveRequest(id), host), host)
  {
    hide FileIsSound;
    var s' := Step(s, MoveRequest(id), host);
    hide Step;
    assert FilesAreSound(s'.files, s'.clients, s'.answers) by {
      MoveRequestKeepsFiles(s, id, host);
    }
    hide FilesAreSound;
    assert ProgressIsSound(s'.clients, s'.seen, s'.files, s'.answers, CurrentWork(s'.polls)) by {
      MoveRequestKeepsProgress(s, id, host);
    }
    hide ProgressIsSound;
    MoveRequestKeepsRest(s, id, host);
  }

  lemma MoveRequestKeepsFiles(s: State, id: Id, host: Host)
    requires Inv(s, host) && Enabled(s, MoveRequest(id))
    ensures var s' := Step(s, MoveRequest(id), host); FilesAreSound(s'.files, s'.clients, s'.answers)
  {
    hide ClientsAreSound, ProgressIsSound, PollsAreSound, ExecutionsAreSound, WorkIsSound, AnswersAreRight;
  }

  lemma MoveRequestKeepsProgress(s: State, id: Id, host: Host)
    requires Inv(s, host) && Enabled(s, MoveRequest(id))
    ensures var s' := Step(s, MoveRequest(id), host);
            ProgressIsSound(s'.clients, s'.seen, s'.files, s'.answers, CurrentWork(s'.polls))
  {
    hide ClientsAreSound, FilesAreSound, PollsAreSound, ExecutionsAreSound, WorkIsSound, AnswersAreRight;
  }

  lemma MoveRequestKeepsRest(s: State, id: Id, host: Host)
    requires Inv(s, host) && Enabled(s, MoveRequest(id))
    ensures var s' := Step(s, MoveRequest(id), host);
            var work := CurrentWork(s'.polls);
            && OnePoll(s'.polls, s'.draining)
            && ClientsAreSound(s'.clients, s'.files, s'.answers)
            && PollsAreSound(s'.polls, s'.clients, s'.seen)
            && ExecutionsAreSound(s'.executions, s'.clients, s'.seen, work, host)
            && WorkIsSound(work, s'.clients, host)
            && AnswersAreRight(s'.answers, s'.clients, s'.executions, host)
  {
    hide FilesAreSound, ProgressIsSound;
  }

  /** A client that has sent its request moves on: all the rest stays as it is. */
  lemma ClientMovesOnFiles(s: State, id: Id, phase: ClientPhase, host: Host)
    requires Inv(s, host) && id in s.clients && !s.clients[id].phase.Writing? && !phase.Writing?
    requires ClientIsSound(id, s.clients[id].(phase := phase), s.files, s.answers)
    ensures var s' := WithClient(s, id, phase);
            && FilesAreSound(s'.files, s'.clients, s'.answers)
            && ClientsAreSound(s'.clients, s'.files, s'.answers)
  {
    hide ProgressIsSound, PollsAreSound, ExecutionsAreSound, WorkIsSound, AnswersAreRight, ClientIsSound;
  }

  lemma ClientMovesOnProgress(s: State, id: Id, phase: ClientPhase, host: Host)
    requires Inv(s, host) && id in s.clients && !s.clients[id].phase.Writing? && !phase.Writing?
    ensures var s' := WithClient(s, id, phase);
            && ProgressIsSound(s'.clients, s'.seen, s'.files, s'.answers, CurrentWork(s'.polls))
            && PollsAreSound(s'.polls, s'.clients, s'.seen)
  {
    hide FilesAreSound, ClientsAreSound, ExecutionsAreSound, WorkIsSound, AnswersAreRight;
  }

  lemma ClientMovesOnAnswers(s: State, id: Id, phase: ClientPhase, host: Host)
    requires Inv(s, host) && id in s.clients
    ensures var s' := WithClient(s, id, phase);
            && ExecutionsAreSound(s'.executions, s'.clients, s'.seen, CurrentWork(s'.polls), host)
            && WorkIsSound(CurrentWork(s'.polls), s'.clients, host)
            && AnswersAreRight(s'.answers, s'.clients, s'.executions, host)
  {
    hide FilesAreSound, ClientsAreSound, ProgressIsSound, PollsAreSound;
    var s' := WithClient(s, id, phase);
    forall x <- s.executions
      ensures ExecutionIsSound(x, s'.clients, s'.seen, CurrentWork(s'.polls), host)
    {
      assert ExecutionIsSound(x, s.clients, s.seen, CurrentWork(s.polls), host);
    }
  }

  lemma ClientMovesOn(s: State, id: Id, phase: ClientPhase, host: Host)
    requires Inv(s, host) && id in s.clients && !s.clients[id].phase.Writing? && !phase.Writing?
    requires ClientIsSound(id, s.clients[id].(phase := phase), s.files, s.answers)
    ensures Inv(WithClient(s, id, phase), host)
  {
    hide FilesAreSound, ClientsAreSound, ProgressIsSound, PollsAreSound, ExecutionsAreSound, WorkIsSound, AnswersAreRight;
    ClientMovesOnFiles(s, id, phase, host);
    ClientMovesOnProgress(s, id, phase, host);
    ClientMovesOnAnswers(s, id, phase, host);
  }

  lemma ResponseIsAnswer(s: State, id: Id, host: Host)
    requires Inv(s, host) && ResponseFile(id) in s.files
    ensures id in s.answers && s.files[ResponseFile(id)] == ResponseBody(s.answers[id])
  {
    assert FileIsSound(ResponseFile(id), s.files[ResponseFile(id)], s.clients, s.answers);
  }

  lemma NoticeKeepsInv(s: State, id: Id, host: Host)
    requires Inv(s, host) && Enabled(s, Notice(id))
    ensures Inv(Step(s, Notice(id), host), host)
  {
    hide Inv;
    ResponseIsAnswer(s, id, host);
    ClientMovesOn(s, id, Reading([]), host);
  }

  lemma ReadLineKeepsInv(s: State, id: Id, host: Host)
    requires Inv(s, host) && Enabled(s, ReadLine(id))
    ensures Inv(Step(s, ReadLine(id), host), host)
  {
    assert ClientIsSound(id, s.clients[id], s.files, s.answers);
    hide Inv, LineOf, ResponseBody;
    ResponseIsAnswer(s, id, host);
    var lines := s.clients[id].phase.lines;
    ClientMovesOn(s, id, Reading(lines + [LineOf(s.files[ResponseFile(id)], |lines|)]), host);
  }

  lemma GiveUpKeepsInv(s: State, id: Id, host: Host)
    requires Inv(s, host) && Enabled(s, GiveUp(id))
    ensures Inv(Step(s, GiveUp(id), host), host)
  {
    hide Inv;
    ClientMovesOn(s, id, GaveUp, host);
  }

  lemma TickKeepsInv(s: State, host: Host)
    requires Inv(s, host)
    ensures Inv(Step(s, Tick, host), host)
  {
  }

  lemma RequestsMembers(files: map<File, string>, id: Id)
    ensures id in Requests(files) <==> RequestFile(id) in files
  {
    if RequestFile(id) in files {
      assert RequestFile(id).id in Requests(files);
    }
  }

  lemma ListKeepsInv(s: State, i: nat, order: seq<Id>, host: Host)
    requires Inv(s, host) && Enabled(s, List(i, order))
    ensures Inv(Step(s, List(i, order), host), host)
  {
    hide Requests;
    forall id: Id
      ensures id in order <==> RequestFile(id) in s.files
      ensures id in order <==> id in Requests(s.files)
    {
      assert id in order <==> id in set x <- order;
      RequestsMembers(s.files, id);
    }
  }

  /** The entry at the front of the listing, if it was never claimed, has no answer yet and its request is there. */
  lemma NextIsUnanswered(s: State, i: nat, host: Host)
    requires Inv(s, host) && Enabled(s, Choose(i)) && s.polls[i].todo != [] && s.polls[i].todo[0] !in s.seen
    ensures var id := s.polls[i].todo[0];
            && id in s.clients && !s.clients[id].phase.Writing? && id !in s.answers
            && RequestFile(id) in s.files && ResponseFile(id) !in s.files
  {
    hide ClientsAreSound, ExecutionsAreSound, WorkIsSound, AnswersAreRight;
    var id := s.polls[i].todo[0];
    assert id in s.polls[i].todo;
    assert PollIsSound(s.polls[i], s.clients, s.seen);
    assert ProgressOf(id, s.clients[id], s.seen, s.files, s.answers, CurrentWork(s.polls));
    assert ResponseFile(id) in s.files ==> id in s.answers;
  }

  lemma ChooseKeepsProgress(s: State, i: nat, host: Host)
    requires Inv(s, host) && Enabled(s, Choose(i))
    ensures var s' := Step(s, Choose(i), host);
            && ProgressIsSound(s'.clients, s'.seen, s'.files, s'.answers, CurrentWork(s'.polls))
            && OnePoll(s'.polls, s'.draining)
  {
    hide ResponseBody, LineOf, Renamed, Requests, EndExecution;
    hide ClientsAreSound, ExecutionsAreSound, WorkIsSound, AnswersAreRight, FilesAreSound, PollsAreSound;
    if s.polls[i].todo != [] && s.polls[i].todo[0] !in s.seen {
      NextIsUnanswered(s, i, host);
    }
  }

  lemma ChooseKeepsPolls(s: State, i: nat, host: Host)
    requires Inv(s, host) && Enabled(s, Choose(i))
    ensures var s' := Step(s, Choose(i), host);
            && PollsAreSound(s'.polls, s'.clients, s'.seen)
            && WorkIsSound(CurrentWork(s'.polls), s'.clients, host)
  {
    hide ResponseBody, LineOf, Renamed, Requests, EndExecution;
    hide ClientsAreSound, ExecutionsAreSound, ProgressIsSound, FilesAreSound, AnswersAreRight;
    var poll := s.polls[i];
    assert PollIsSound(poll, s.clients, s.seen);
    if poll.todo != [] {
      assert poll.todo == [poll.todo[0]] + poll.todo[1..];
      assert PollIsSound(poll.(todo := poll.todo[1..]), s.clients, s.seen + {poll.todo[0]});
    }
  }

  /** While nothing runs, moving on to a request never claimed before concerns no execution. */
  lemma ExecutionsWhileChoosing(s: State, seen: set<Id>, work: Work, host: Host)
    requires Inv(s, host) && CurrentWork(s.polls).Choosing? && s.seen <= seen
    requires work.Listing? || work.Choosing? || (work.Claimed? && work.id !in s.seen)
    ensures ExecutionsAreSound(s.executions, s.clients, seen, work, host)
  {
    hide ClientsAreSound, PollsAreSound, ProgressIsSound, FilesAreSound, AnswersAreRight, WorkIsSound;
    forall x <- s.executions
      ensures ExecutionIsSound(x, s.clients, seen, work, host)
    {
      assert ExecutionIsSound(x, s.clients, s.seen, CurrentWork(s.polls), host);
    }
  }

  lemma ChooseKeepsExecutions(s: State, i: nat, host: Host)
    requires Inv(s, host) && Enabled(s, Choose(i))
    ensures var s' := Step(s, Choose(i), host);
            ExecutionsAreSound(s'.executions, s'.clients, s'.seen, CurrentWork(s'.polls), host)
  {
    hide ResponseBody, LineOf, Renamed, Requests, EndExecution;
    var s' := Step(s, Choose(i), host);
    ExecutionsWhileChoosing(s, s'.seen, CurrentWork(s'.polls), host);
  }

  lemma StepIsChosen(s: State, i: nat, host: Host)
    requires Enabled(s, Choose(i))
    ensures Step(s, Choose(i), host) == Chosen(s, i)
  {
    hide Chosen;
  }

  lemma ChosenLeavesFiles(s: State, i: nat)
    requires i < |s.polls|
    ensures var s' := Chosen(s, i); s' == s.(polls := s'.polls, draining := s'.draining, seen := s'.seen)
  {
  }

  lemma ChooseKeepsFiles(s: State, i: nat, host: Host)
    requires Inv(s, host) && Enabled(s, Choose(i))
    ensures var s' := Step(s, Choose(i), host);
            && FilesAreSound(s'.files, s'.clients, s'.answers)
            && ClientsAreSound(s'.clients, s'.files, s'.answers)
            && AnswersAreRight(s'.answers, s'.clients, s'.executions, host)
  {
    hide Step, ProgressIsSound, PollsAreSound, WorkIsSound, ExecutionsAreSound, ClientsAreSound, FilesAreSound,
      AnswersAreRight;
    StepIsChosen(s, i, host);
    hide Chosen;
    ChosenLeavesFiles(s, i);
  }

  lemma ChooseKeepsInv(s: State, i: nat, host: Host)
    requires Inv(s, host) && Enabled(s, Choose(i))
    ensures Inv(Step(s, Choose(i), host), host)
  {
    hide Step, OnePoll, FilesAreSound, ClientsAreSound, ProgressIsSound, PollsAreSound, ExecutionsAreSound, WorkIsSound,
      AnswersAreRight;
    ChooseKeepsFiles(s, i, host);
    ChooseKeepsProgress(s, i, host);
    ChooseKeepsPolls(s, i, host);
    ChooseKeepsExecutions(s, i, host);
  }

  lemma ClaimedRequestIsWhole(s: State, i: nat, host: Host)
    requires Inv(s, host) && Enabled(s, ReadRequest(i))
    ensures var id := s.polls[i].work.id;
            id in s.clients && RequestFile(id) in s.files && s.files[RequestFile(id)] == s.clients[id].text
  {
    hide ClientsAreSound, PollsAreSound, AnswersAreRight, ExecutionsAreSound, WorkIsSound;
    var id := s.polls[i].work.id;
    assert ProgressOf(id, s.clients[id], s.seen, s.files, s.answers, CurrentWork(s.polls));
    assert FileIsSound(RequestFile(id), s.files[RequestFile(id)], s.clients, s.answers);
  }

  lemma ReadRequestKeepsExecutions(s: State, i: nat, host: Host)
    requires Inv(s, host) && Enabled(s, ReadRequest(i))
    ensures var s' := Step(s, ReadRequest(i), host);
            ExecutionsAreSound(s'.executions, s'.clients, s'.seen, CurrentWork(s'.polls), host)
  {
    hide ResponseBody, LineOf, Renamed, Requests, EndExecution;
    hide ClientsAreSound, PollsAreSound, FilesAreSound, AnswersAreRight, ProgressIsSound, WorkIsSound;
    var s' := Step(s, ReadRequest(i), host);
    forall x <- s.executions
      ensures ExecutionIsSound(x, s'.clients, s'.seen, CurrentWork(s'.polls), host)
    {
      assert ExecutionIsSound(x, s.clients, s.seen, CurrentWork(s.polls), host);
    }
  }

  lemma ClaimedIsUnanswered(s: State, i: nat, host: Host)
    requires Inv(s, host) && Enabled(s, ReadRequest(i))
    ensures var id := s.polls[i].work.id;
            id in s.seen && id !in s.answers && ResponseFile(id) !in s.files
  {
    hide ClientsAreSound, PollsAreSound, AnswersAreRight, ExecutionsAreSound, WorkIsSound, FilesAreSound;
    var id := s.polls[i].work.id;
    assert ProgressOf(id, s.clients[id], s.seen, s.files, s.answers, CurrentWork(s.polls));
  }

  lemma ReadRequestKeepsFiles(s: State, i: nat, host: Host)
    requires Inv(s, host) && Enabled(s, ReadRequest(i))
    ensures var s' := Step(s, ReadRequest(i), host);
            && FilesAreSound(s'.files, s'.clients, s'.answers)
            && ClientsAreSound(s'.clients, s'.files, s'.answers)
  {
    hide ResponseBody, LineOf, Renamed, Requests, EndExecution;
    hide PollsAreSound, AnswersAreRight, ExecutionsAreSound, WorkIsSound, ProgressIsSound;
    ClaimedRequestIsWhole(s, i, host);
    ClaimedIsUnanswered(s, i, host);
  }

  lemma ReadRequestKeepsProgress(s: State, i: nat, host: Host)
    requires Inv(s, host) && Enabled(s, ReadRequest(i))
    ensures var s' := Step(s, ReadRequest(i), host);
            ProgressIsSound(s'.clients, s'.seen, s'.files, s'.answers, CurrentWork(s'.polls))
  {
    hide ResponseBody, LineOf, Renamed, Requests, EndExecution;
    hide PollsAreSound, AnswersAreRight, ExecutionsAreSound, WorkIsSound, FilesAreSound, ClientsAreSound;
    ClaimedIsUnanswered(s, i, host);
  }

  lemma ReadRequestKeepsRest(s: State, i: nat, host: Host)
    requires Inv(s, host) && Enabled(s, ReadRequest(i))
    ensures var s' := Step(s, ReadRequest(i), host);
            && OnePoll(s'.polls, s'.draining)
            && PollsAreSound(s'.polls, s'.clients, s'.seen)
            && WorkIsSound(CurrentWork(s'.polls), s'.clients, host)
            && AnswersAreRight(s'.answers, s'.clients, s'.executions, host)
  {
    hide ResponseBody, LineOf, Renamed, Requests, EndExecution;
    hide FilesAreSound, ClientsAreSound, ExecutionsAreSound;
    ClaimedRequestIsWhole(s, i, host);
    hide ProgressIsSound;
  }

  lemma ReadRequestKeepsInv(s: State, i: nat, host: Host)
    requires Inv(s, host) && Enabled(s, ReadRequest(i))
    ensures Inv(Step(s, ReadRequest(i), host), host)
  {
    hide Step, OnePoll, FilesAreSound, ClientsAreSound, ProgressIsSound, PollsAreSound, ExecutionsAreSound, WorkIsSound,
      AnswersAreRight;
    ReadRequestKeepsExecutions(s, i, host);
    ReadRequestKeepsFiles(s, i, host);
    ReadRequestKeepsProgress(s, i, host);
    ReadRequestKeepsRest(s, i, host);
  }

  lemma RemoveRequestKeepsFiles(s: State, i: nat, host: Host)
    requires Inv(s, host) && Enabled(s, RemoveRequest(i))
    ensures var s' := Step(s, RemoveRequest(i), host);
            && FilesAreSound(s'.files, s'.clients, s'.answers)
            && ClientsAreSound(s'.clients, s'.files, s'.answers)
            && OnePoll(s'.polls, s'.draining)
            && PollsAreSound(s'.polls, s'.clients, s'.seen)
  {
    hide AnswersAreRight, ExecutionsAreSound, WorkIsSound, ProgressIsSound;
  }

  lemma RemoveRequestKeepsProgress(s: State, i: nat, host: Host)
    requires Inv(s, host) && Enabled(s, RemoveRequest(i))
    ensures var s' := Step(s, RemoveRequest(i), host);
            ProgressIsSound(s'.clients, s'.seen, s'.files, s'.answers, CurrentWork(s'.polls))
  {
    hide PollsAreSound, AnswersAreRight, ExecutionsAreSound, WorkIsSound, FilesAreSound, ClientsAreSound;
  }

  lemma RemoveRequestKeepsExecutions(s: State, i: nat, host: Host)
    requires Inv(s, host) && Enabled(s, RemoveRequest(i))
    ensures var s' := Step(s, RemoveRequest(i), host);
            && ExecutionsAreSound(s'.executions, s'.clients, s'.seen, CurrentWork(s'.polls), host)
            && WorkIsSound(CurrentWork(s'.polls), s'.clients, host)
            && AnswersAreRight(s'.answers, s'.clients, s'.executions, host)
  {
    hide PollsAreSound, ProgressIsSound, FilesAreSound, ClientsAreSound;
    var s' := Step(s, RemoveRequest(i), host);
    forall x <- s.executions
      ensures ExecutionIsSound(x, s'.clients, s'.seen, CurrentWork(s'.polls), host)
    {
      assert ExecutionIsSound(x, s.clients, s.seen, CurrentWork(s.polls), host);
    }
  }

  lemma RemoveRequestKeepsInv(s: State, i: nat, host: Host)
    requires Inv(s, host) && Enabled(s, RemoveRequest(i))
    ensures Inv(Step(s, RemoveRequest(i), host), host)
  {
    hide Step, OnePoll, FilesAreSound, ClientsAreSound, ProgressIsSound, PollsAreSound, ExecutionsAreSound, WorkIsSound,
      AnswersAreRight;
    RemoveRequestKeepsFiles(s, i, host);
    RemoveRequestKeepsProgress(s, i, host);
    RemoveRequestKeepsExecutions(s, i, host);
  }

  lemma CheckCommandKeepsExecutions(s: State, i: nat, host: Host)
    requires Inv(s, host) && Enabled(s, CheckCommand(i))
    ensures var s' := Step(s, CheckCommand(i), host);
            ExecutionsAreSound(s'.executions, s'.clients, s'.seen, CurrentWork(s'.polls), host)
  {
    hide ResponseBody, LineOf, Renamed, Requests, EndExecution;
    hide ClientsAreSound, PollsAreSound, FilesAreSound, AnswersAreRight;
    var s' := Step(s, CheckCommand(i), host);
    var id := s.polls[i].work.id;
    forall x <- s.executions
      ensures ExecutionIsSound(x, s'.clients, s'.seen, CurrentWork(s'.polls), host) && x.id != id
    {
      assert ExecutionIsSound(x, s.clients, s.seen, CurrentWork(s.polls), host);
    }
    assert forall k | 0 <= k < |s.executions| :: s.executions[k] in s.executions;
  }

  lemma CheckedIsUnanswered(s: State, i: nat, host: Host)
    requires Inv(s, host) && Enabled(s, CheckCommand(i))
    ensures var id := s.polls[i].work.id;
            id in s.clients && id in s.seen && id !in s.answers && ResponseFile(id) !in s.files
  {
    hide PollsAreSound, AnswersAreRight, ExecutionsAreSound, WorkIsSound, FilesAreSound, ClientsAreSound;
    var id := s.polls[i].work.id;
    assert ProgressOf(id, s.clients[id], s.seen, s.files, s.answers, CurrentWork(s.polls));
  }

  lemma CheckCommandKeepsFiles(s: State, i: nat, host: Host)
    requires Inv(s, host) && Enabled(s, CheckCommand(i))
    ensures var s' := Step(s, CheckCommand(i), host);
            && FilesAreSound(s'.files, s'.clients, s'.answers)
            && ClientsAreSound(s'.clients, s'.files, s'.answers)
  {
    hide ResponseBody, LineOf, Renamed, Requests, EndExecution;
    hide PollsAreSound, AnswersAreRight, ExecutionsAreSound, WorkIsSound, ProgressIsSound;
    CheckedIsUnanswered(s, i, host);
  }

  lemma CheckCommandKeepsProgress(s: State, i: nat, host: Host)
    requires Inv(s, host) && Enabled(s, CheckCommand(i))
    ensures var s' := Step(s, CheckCommand(i), host);
            ProgressIsSound(s'.clients, s'.seen, s'.files, s'.answers, CurrentWork(s'.polls))
  {
    hide ResponseBody, LineOf, Renamed, Requests, EndExecution;
    hide PollsAreSound, AnswersAreRight, ExecutionsAreSound, WorkIsSound, FilesAreSound, ClientsAreSound;
    CheckedIsUnanswered(s, i, host);
  }

  lemma CheckCommandKeepsPolls(s: State, i: nat, host: Host)
    requires Inv(s, host) && Enabled(s, CheckCommand(i))
    ensures var s' := Step(s, CheckCommand(i), host);
            && OnePoll(s'.polls, s'.draining)
            && PollsAreSound(s'.polls, s'.clients, s'.seen)
            && WorkIsSound(CurrentWork(s'.polls), s'.clients, host)
  {
    hide ResponseBody, LineOf, Renamed, Requests, EndExecution;
    hide FilesAreSound, ClientsAreSound, ExecutionsAreSound, ProgressIsSound, AnswersAreRight;
  }

  lemma CheckCommandKeepsAnswers(s: State, i: nat, host: Host)
    requires Inv(s, host) && Enabled(s, CheckCommand(i))
    ensures var s' := Step(s, CheckCommand(i), host);
            AnswersAreRight(s'.answers, s'.clients, s'.executions, host)
  {
    hide ResponseBody, LineOf, Renamed, Requests, EndExecution;
    CheckedIsUnanswered(s, i, host);
    hide FilesAreSound, ClientsAreSound, ExecutionsAreSound, ProgressIsSound, PollsAreSound;
  }

  lemma CheckCommandKeepsInv(s: State, i: nat, host: Host)
    requires Inv(s, host) && Enabled(s, CheckCommand(i))
    ensures Inv(Step(s, CheckCommand(i), host), host)
  {
    hide Step, OnePoll, FilesAreSound, ClientsAreSound, ProgressIsSound, PollsAreSound, ExecutionsAreSound, WorkIsSound,
      AnswersAreRight;
    CheckCommandKeepsExecutions(s, i, host);
    CheckCommandKeepsFiles(s, i, host);
    CheckCommandKeepsProgress(s, i, host);
    CheckCommandKeepsPolls(s, i, host);
    CheckCommandKeepsAnswers(s, i, host);
  }

  /** Exactly the unfinished execution of `id` gets its outcome. */
  lemma {:induction false} EndExecutionAt(executions: seq<Execution>, id: Id, outcome: Outcome)
    ensures var r := EndExecution(executions, id, outcome);
            && |r| == |executions|
            && forall k | 0 <= k < |executions| ::
                 r[k] == if executions[k].id == id && executions[k].result.None?
                         then executions[k].(result := Some(outcome)) else executions[k]
  {
    if executions != [] {
      EndExecutionAt(executions[..|executions| - 1], id, outcome);
    }
  }

  lemma FixtureExitKeepsExecutions(s: State, i: nat, outcome: Outcome, host: Host)
    requires Inv(s, host) && Enabled(s, FixtureExit(i, outcome))
    ensures var s' := Step(s, FixtureExit(i, outcome), host);
            ExecutionsAreSound(s'.executions, s'.clients, s'.seen, CurrentWork(s'.polls), host)
  {
    hide ClientsAreSound, PollsAreSound, FilesAreSound, AnswersAreRight, ProgressIsSound, WorkIsSound, EndExecution;
    var s' := Step(s, FixtureExit(i, outcome), host);
    var id := s.polls[i].work.id;
    EndExecutionAt(s.executions, id, outcome);
    forall k | 0 <= k < |s'.executions|
      ensures s'.executions[k].id == s.executions[k].id
      ensures ExecutionIsSound(s'.executions[k], s'.clients, s'.seen, CurrentWork(s'.polls), host)
    {
      assert s.executions[k] in s.executions;
      assert ExecutionIsSound(s.executions[k], s.clients, s.seen, CurrentWork(s.polls), host);
    }
  }

  lemma FixtureExitKeepsAnswers(s: State, i: nat, outcome: Outcome, host: Host)
    requires Inv(s, host) && Enabled(s, FixtureExit(i, outcome))
    ensures var s' := Step(s, FixtureExit(i, outcome), host);
            AnswersAreRight(s'.answers, s'.clients, s'.executions, host)
  {
    hide ClientsAreSound, PollsAreSound, FilesAreSound, EndExecution;
    var s' := Step(s, FixtureExit(i, outcome), host);
    var id := s.polls[i].work.id;
    var request := s.polls[i].work.request;
    EndExecutionAt(s.executions, id, outcome);
    forall a <- s'.answers
      ensures IsAnswer(a, s'.clients[a].text, s'.answers[a], s'.executions, host)
    {
      if a == id {
        var k :| 0 <= k < |s.executions| && s.executions[k] == Execution(id, request, None);
        assert s'.executions[k] == Execution(id, request, Some(outcome));
      } else {
        assert IsAnswer(a, s.clients[a].text, s.answers[a], s.executions, host);
        FinishedStaysFinished(s.executions, id, outcome, a, s.answers[a]);
      }
    }
  }

  lemma FinishedStaysFinished(executions: seq<Execution>, id: Id, outcome: Outcome, a: Id, o: Outcome)
    ensures forall r :: Execution(a, r, Some(o)) in executions
              ==> Execution(a, r, Some(o)) in EndExecution(executions, id, outcome)
  {
    EndExecutionAt(executions, id, outcome);
    forall r | Execution(a, r, Some(o)) in executions
      ensures Execution(a, r, Some(o)) in EndExecution(executions, id, outcome)
    {
      var k :| 0 <= k < |executions| && executions[k] == Execution(a, r, Some(o));
      assert EndExecution(executions, id, outcome)[k] == executions[k];
    }
  }

  lemma FixtureExitKeepsFiles(s: State, i: nat, outcome: Outcome, host: Host)
    requires Inv(s, host) && Enabled(s, FixtureExit(i, outcome))
    ensures var s' := Step(s, FixtureExit(i, outcome), host);
            && FilesAreSound(s'.files, s'.clients, s'.answers)
            && ClientsAreSound(s'.clients, s'.files, s'.answers)
            && ProgressIsSound(s'.clients, s'.seen, s'.files, s'.answers, CurrentWork(s'.polls))
  {
    hide PollsAreSound, ExecutionsAreSound, WorkIsSound, AnswersAreRight, EndExecution;
  }

  lemma FixtureExitKeepsPolls(s: State, i: nat, outcome: Outcome, host: Host)
    requires Inv(s, host) && Enabled(s, FixtureExit(i, outcome))
    ensures var s' := Step(s, FixtureExit(i, outcome), host);
            && OnePoll(s'.polls, s'.draining)
            && PollsAreSound(s'.polls, s'.clients, s'.seen)
            && WorkIsSound(CurrentWork(s'.polls), s'.clients, host)
  {
    hide FilesAreSound, ClientsAreSound, ProgressIsSound, ExecutionsAreSound, AnswersAreRight, EndExecution;
  }

  lemma FixtureExitKeepsInv(s: State, i: nat, outcome: Outcome, host: Host)
    requires Inv(s, host) && Enabled(s, FixtureExit(i, outcome))
    ensures Inv(Step(s, FixtureExit(i, outcome), host), host)
  {
    hide Step, OnePoll, FilesAreSound, ClientsAreSound, ProgressIsSound, PollsAreSound, ExecutionsAreSound, WorkIsSound,
      AnswersAreRight;
    FixtureExitKeepsFiles(s, i, outcome, host);
    FixtureExitKeepsPolls(s, i, outcome, host);
    FixtureExitKeepsExecutions(s, i, outcome, host);
    FixtureExitKeepsAnswers(s, i, outcome, host);
  }

  lemma WriteResponseKeepsInv(s: State, i: nat, length: nat, host: Host)
    requires Inv(s, host) && Enabled(s, WriteResponse(i, length))
    ensures Inv(Step(s, WriteResponse(i, length), host), host)
  {
  }

  lemma MoveResponseKeepsFiles(s: State, i: nat, host: Host)
    requires Inv(s, host) && Enabled(s, MoveResponse(i))
    ensures var s' := Step(s, MoveResponse(i), host);
            FilesAreSound(s'.files, s'.clients, s'.answers) && ClientsAreSound(s'.clients, s'.files, s'.answers)
  {
    hide PollsAreSound, AnswersAreRight, ExecutionsAreSound, WorkIsSound;
  }

  lemma MoveResponseKeepsProgress(s: State, i: nat, host: Host)
    requires Inv(s, host) && Enabled(s, MoveResponse(i))
    ensures var s' := Step(s, MoveResponse(i), host);
            ProgressIsSound(s'.clients, s'.seen, s'.files, s'.answers, CurrentWork(s'.polls))
  {
    hide PollsAreSound, AnswersAreRight, ExecutionsAreSound, WorkIsSound, FilesAreSound, ClientsAreSound;
  }

  lemma MoveResponseKeepsExecutions(s: State, i: nat, host: Host)
    requires Inv(s, host) && Enabled(s, MoveResponse(i))
    ensures var s' := Step(s, MoveResponse(i), host);
            ExecutionsAreSound(s'.executions, s'.clients, s'.seen, CurrentWork(s'.polls), host)
  {
    hide ClientsAreSound, PollsAreSound, FilesAreSound, AnswersAreRight, ProgressIsSound, WorkIsSound;
    var s' := Step(s, MoveResponse(i), host);
    forall x <- s.executions
      ensures ExecutionIsSound(x, s'.clients, s'.seen, CurrentWork(s'.polls), host)
    {
      assert ExecutionIsSound(x, s.clients, s.seen, CurrentWork(s.polls), host);
    }
  }

  lemma MoveResponseKeepsRest(s: State, i: nat, host: Host)
    requires Inv(s, host) && Enabled(s, MoveResponse(i))
    ensures var s' := Step(s, MoveResponse(i), host);
            && OnePoll(s'.polls, s'.draining)
            && PollsAreSound(s'.polls, s'.clients, s'.seen)
            && WorkIsSound(CurrentWork(s'.polls), s'.clients, host)
            && AnswersAreRight(s'.answers, s'.clients, s'.executions, host)
  {
    hide FilesAreSound, ClientsAreSound, ExecutionsAreSound;
    hide ProgressIsSound;
  }

  lemma MoveResponseKeepsInv(s: State, i: nat, host: Host)
    requires Inv(s, host) && Enabled(s, MoveResponse(i))
    ensures Inv(Step(s, MoveResponse(i), host), host)
  {
    hide Step, OnePoll, FilesAreSound, ClientsAreSound, ProgressIsSound, PollsAreSound, ExecutionsAreSound, WorkIsSound,
      AnswersAreRight;
    MoveResponseKeepsFiles(s, i, host);
    MoveResponseKeepsProgress(s, i, host);
    MoveResponseKeepsExecutions(s, i, host);
    MoveResponseKeepsRest(s, i, host);
  }

  // ----- Every reachable state -----

  lemma StepKeepsInv(s: State, e: Event, host: Host)
    requires Inv(s, host) && Enabled(s, e)
    ensures Inv(Step(s, e, host), host)
  {
    match e {
      case Start(id, text) => StartKeepsInv(s, id, text, host);
      case WriteRequest(id, length) => WriteRequestKeepsInv(s, id, length, host);
      case MoveRequest(id) => MoveRequestKeepsInv(s, id, host);
      case Notice(id) => NoticeKeepsInv(s, id, host);
      case ReadLine(id) => ReadLineKeepsInv(s, id, host);
      case GiveUp(id) => GiveUpKeepsInv(s, id, host);
      case Tick => TickKeepsInv(s, host);
      case Stop =>
      case List(i, order) => ListKeepsInv(s, i, order, host);
      case Choose(i) => ChooseKeepsInv(s, i, host);
      case ReadRequest(i) => ReadRequestKeepsInv(s, i, host);
      case RemoveRequest(i) => RemoveRequestKeepsInv(s, i, host);
      case CheckCommand(i) => CheckCommandKeepsInv(s, i, host);
      case FixtureExit(i, outcome) => FixtureExitKeepsInv(s, i, outcome, host);
      case WriteResponse(i, length) => WriteResponseKeepsInv(s, i, length, host);
      case MoveResponse(i) => MoveResponseKeepsInv(s, i, host);
    }
  }

  lemma {:induction false} ReachableInv(events: seq<Event>, host: Host)
    ensures Run(events, host).Some? ==> Inv(Run(events, host).value, host)
  {
    hide Inv, Step;
    if events == [] {
      InitialInv(host);
    } else {
      var before := events[..|events| - 1];
      ReachableInv(before, host);
      if Run(before, host).Some? && Enabled(Run(before, host).value, events[|events| - 1]) {
        StepKeepsInv(Run(before, host).value, events[|events| - 1], host);
      }
    }
  }

  lemma InitialInv(host: Host)
    ensures Inv(INITIAL, host)
  {
  }

  // ----- Main results -----

  /** A request is executed at most once, only if it parses and names a fixture, with its own command and arguments. */
  lemma ExecutedAtMostOnce(events: seq<Event>, host: Host)
    requires Run(events, host).Some?
    ensures var s := Run(events, host).value;
            && (forall i, k | 0 <= i < k < |s.executions| :: s.executions[i].id != s.executions[k].id)
            && (forall x <- s.executions ::
                  && x.id in s.clients && host.parse(s.clients[x.id].text) == Some(x.request) && host.Knows(x.request))
  {
    ReachableInv(events, host);
    var s := Run(events, host).value;
    forall x <- s.executions
      ensures x.id in s.clients && host.parse(s.clients[x.id].text) == Some(x.request) && host.Knows(x.request)
    {
      assert ExecutionIsSound(x, s.clients, s.seen, CurrentWork(s.polls), host);
    }
  }

  /** There is never a second poll, so two fixtures never run at the same time. */
  lemma OneExecutionAtATime(events: seq<Event>, host: Host)
    requires Run(events, host).Some?
    ensures var s := Run(events, host).value;
            && |s.polls| <= 1
            && forall x, y :: x in s.executions && y in s.executions && x.result.None? && y.result.None? ==> x == y
  {
    ReachableInv(events, host);
    var s := Run(events, host).value;
    forall x, y | x in s.executions && y in s.executions && x.result.None? && y.result.None?
      ensures x == y
    {
      assert ExecutionIsSound(x, s.clients, s.seen, CurrentWork(s.polls), host);
      assert ExecutionIsSound(y, s.clients, s.seen, CurrentWork(s.polls), host);
    }
  }

  /**
   * What a client ends with is the answer to its own request, byte for byte: the outcome of the one
   * execution of that request, or the error that the request deserves.
   */
  lemma ClientObservesItsOwnAnswer(events: seq<Event>, host: Host, id: Id)
    requires Run(events, host).Some?
    requires var s := Run(events, host).value;
             id in s.clients && s.clients[id].phase.Reading? && |s.clients[id].phase.lines| == 3
    ensures var s := Run(events, host).value;
            var lines := s.clients[id].phase.lines;
            && id in s.answers
            && IsAnswer(id, s.clients[id].text, s.answers[id], s.executions, host)
            && Observe(lines[0], lines[1], lines[2]) == Some(Expected(s.answers[id]))
  {
    ReachableInv(events, host);
    var s := Run(events, host).value;
    hide Run, Inv, ResponseBody, Observe;
    ReadersAnswer(s, host, id);
    ResponseRoundTrip(s.answers[id]);
  }

  lemma ReadersAnswer(s: State, host: Host, id: Id)
    requires Inv(s, host) && id in s.clients && s.clients[id].phase.Reading?
    ensures id in s.answers && IsAnswer(id, s.clients[id].text, s.answers[id], s.executions, host)
    ensures forall k | 0 <= k < |s.clients[id].phase.lines| ::
              s.clients[id].phase.lines[k] == LineOf(ResponseBody(s.answers[id]), k)
  {
    assert ClientIsSound(id, s.clients[id], s.files, s.answers);
  }

  /** No client ever finds half a response. */
  lemma VisibleResponsesAreComplete(events: seq<Event>, host: Host, id: Id)
    requires Run(events, host).Some? && ResponseFile(id) in Run(events, host).value.files
    ensures var s := Run(events, host).value;
            id in s.answers && s.files[ResponseFile(id)] == ResponseBody(s.answers[id])
  {
    ReachableInv(events, host);
    var s := Run(events, host).value;
    assert FileIsSound(ResponseFile(id), s.files[ResponseFile(id)], s.clients, s.answers);
  }

  /** When a poll is about to end, every request it listed has its response, even if the broker was stopped meanwhile. */
  lemma PollAnswersWhatItListed(events: seq<Event>, host: Host, id: Id)
    requires Run(events, host).Some?
    requires var polls := Run(events, host).value.polls;
             polls != [] && polls[0].work.Choosing? && polls[0].todo == [] && id in polls[0].listed
    ensures ResponseFile(id) in Run(events, host).value.files
  {
    ReachableInv(events, host);
    var s := Run(events, host).value;
    assert PollIsSound(s.polls[0], s.clients, s.seen);
    assert id in s.seen && id in s.clients;
    assert ProgressOf(id, s.clients[id], s.seen, s.files, s.answers, CurrentWork(s.polls));
  }

  /** No request is lost: one that was moved into place is waiting there, being handled, or answered. */
  lemma NoRequestIsLost(events: seq<Event>, host: Host, id: Id)
    requires Run(events, host).Some?
    requires id in Run(events, host).value.clients && !Run(events, host).value.clients[id].phase.Writing?
    ensures var s := Run(events, host).value;
            || (id !in s.seen && RequestFile(id) in s.files)
            || CurrentWork(s.polls).Current() == Some(id)
            || ResponseFile(id) in s.files
  {
    ReachableInv(events, host);
    var s := Run(events, host).value;
    assert ProgressOf(id, s.clients[id], s.seen, s.files, s.answers, CurrentWork(s.polls));
  }
}
