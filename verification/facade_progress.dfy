/** The broker never gets stuck: a poll in progress can always go on, and only so often before it ends. */
module FacadeProgress {
  import opened Common
  import opened FacadeWire
  import opened Facade
  import opened FacadeProof

  /** A step of the broker's poll, other than writing (some of) a response file again. */
  predicate IsProgress(e: Event) {
    e.List? || e.Choose? || e.ReadRequest? || e.RemoveRequest? || e.CheckCommand? || e.FixtureExit? || e.MoveResponse?
  }

  function ProgressCount(events: seq<Event>): nat {
    if events == [] then 0
    else ProgressCount(events[..|events| - 1]) + (if IsProgress(events[|events| - 1]) then 1 else 0)
  }

  /** Two steps per poll, for its listing and its end, and six per entry it listed. */
  function Allowance(e: Event): nat {
    if e.List? then 2 + 6 * |e.order| else 0
  }

  function Allowances(events: seq<Event>): nat {
    if events == [] then 0 else Allowances(events[..|events| - 1]) + Allowance(events[|events| - 1])
  }

  /** What is at most still to come of a poll that has listed the directory. */
  function Remaining(poll: Poll): nat {
    if poll.work.Listing? then 0
    else
      1 + 6 * |poll.todo|
      + match poll.work
        case Claimed(_) => 5
        case Parsed(_, _) => 4
        case Checked(_, _) => 3
        case Running(_, _) => 2
        case Responding(_) => 1
        case _ => 0
  }

  function RemainingOf(polls: seq<Poll>): nat {
    if polls == [] then 0 else Remaining(polls[0])
  }

  lemma OthersLeavePolls(s: State, e: Event, host: Host)
    requires Enabled(s, e) && !IsProgress(e) && !e.Tick?
    ensures Step(s, e, host).polls == s.polls
  {
    hide ResponseBody, Requests, Renamed;
  }

  lemma ChooseUsesStep(s: State, i: nat, host: Host)
    requires OnePoll(s.polls, s.draining) && Enabled(s, Choose(i))
    ensures RemainingOf(Step(s, Choose(i), host).polls) + 1 <= RemainingOf(s.polls)
  {
    var poll := s.polls[i];
    assert poll.todo != [] ==> |poll.todo[1..]| == |poll.todo| - 1;
  }

  /** These steps leave a poll's list alone and move its work forward. */
  predicate WorkAdvanced(before: seq<Poll>, after: seq<Poll>) {
    |before| == 1 && |after| == 1 && Remaining(after[0]) < Remaining(before[0])
  }

  lemma ReadingAdvances(s: State, i: nat, host: Host)
    requires OnePoll(s.polls, s.draining) && Enabled(s, ReadRequest(i))
    ensures WorkAdvanced(s.polls, Step(s, ReadRequest(i), host).polls)
  {
  }

  lemma CheckingAdvances(s: State, i: nat, host: Host)
    requires OnePoll(s.polls, s.draining) && Enabled(s, CheckCommand(i))
    ensures WorkAdvanced(s.polls, Step(s, CheckCommand(i), host).polls)
  {
  }

  lemma WorkMovesOn(s: State, e: Event, host: Host)
    requires OnePoll(s.polls, s.draining) && Enabled(s, e)
    requires e.ReadRequest? || e.RemoveRequest? || e.CheckCommand? || e.FixtureExit? || e.MoveResponse?
    ensures WorkAdvanced(s.polls, Step(s, e, host).polls)
  {
    hide ResponseBody, Requests, Renamed, EndExecution;
    if e.ReadRequest? {
      ReadingAdvances(s, e.poll, host);
    } else if e.CheckCommand? {
      CheckingAdvances(s, e.poll, host);
    }
  }

  lemma StepUsesAllowance(s: State, e: Event, host: Host)
    requires OnePoll(s.polls, s.draining) && Enabled(s, e)
    ensures RemainingOf(Step(s, e, host).polls) + (if IsProgress(e) then 1 else 0) <= RemainingOf(s.polls) + Allowance(e)
  {
    if !IsProgress(e) && !e.Tick? {
      hide Step;
      OthersLeavePolls(s, e, host);
    } else if e.Choose? {
      ChooseUsesStep(s, e.poll, host);
    } else if !e.List? && !e.Tick? {
      hide Step;
      WorkMovesOn(s, e, host);
    }
  }

  /**
   * However clients, ticks and polls interleave, the broker takes at most two steps for each listing of the
   * directory and six for each entry listed, not counting the pieces in which it writes a response.
   */
  lemma {:induction false} ProgressIsBounded(events: seq<Event>, host: Host)
    requires Run(events, host).Some?
    ensures ProgressCount(events) + RemainingOf(Run(events, host).value.polls) <= Allowances(events)
  {
    hide Step, Remaining, RemainingOf, Inv;
    if events == [] {
      NothingRemainsAtStart();
    } else {
      var front, e := events[..|events| - 1], events[|events| - 1];
      ProgressIsBounded(front, host);
      ReachableInv(front, host);
      HasOnePoll(Run(front, host).value, host);
      StepUsesAllowance(Run(front, host).value, e, host);
    }
  }

  lemma NothingRemainsAtStart()
    ensures RemainingOf(INITIAL.polls) == 0
  {
  }

  lemma HasOnePoll(s: State, host: Host)
    requires Inv(s, host)
    ensures OnePoll(s.polls, s.draining)
  {
  }

  /** Any finite set can be listed. */
  lemma {:induction false} Listable(ids: set<Id>) returns (order: seq<Id>)
    ensures forall id :: id in order <==> id in ids
  {
    if ids == {} {
      order := [];
    } else {
      var id :| id in ids;
      var rest := Listable(ids - {id});
      order := [id] + rest;
    }
  }

  /** While it is responding, a poll has an answer to write. */
  lemma RespondingHasAnswer(s: State, host: Host)
    requires Inv(s, host) && s.polls != [] && s.polls[0].work.Responding?
    ensures s.polls[0].work.id in s.answers
  {
    hide FilesAreSound, ClientsAreSound, PollsAreSound, ExecutionsAreSound, WorkIsSound, AnswersAreRight;
    var id := s.polls[0].work.id;
    assert ProgressOf(id, s.clients[id], s.seen, s.files, s.answers, CurrentWork(s.polls));
  }

  /**
   * A poll in progress is never stuck: some step that counts is enabled, at the latest after the whole
   * response has been written once more. (That a fixture ends is up to the fixture.)
   */
  lemma PollCanAdvance(events: seq<Event>, host: Host)
    requires Run(events, host).Some? && Run(events, host).value.polls != []
    ensures var s := Run(events, host).value;
            var work := s.polls[0].work;
            if work.Responding? then
              && work.id in s.answers
              && var whole := WriteResponse(0, |ResponseBody(s.answers[work.id])|);
              Enabled(s, whole) && Enabled(Step(s, whole, host), MoveResponse(0))
            else exists e :: IsProgress(e) && Enabled(s, e)
  {
    hide Run, Inv, ResponseBody;
    ReachableInv(events, host);
    var s := Run(events, host).value;
    match s.polls[0].work {
      case Listing =>
        var order := Listable(Requests(s.files));
        assert (set id <- order) == Requests(s.files);
        assert Enabled(s, List(0, order));
      case Choosing => assert Enabled(s, Choose(0));
      case Claimed(_) => assert Enabled(s, ReadRequest(0));
      case Parsed(_, _) => assert Enabled(s, RemoveRequest(0));
      case Checked(_, _) => assert Enabled(s, CheckCommand(0));
      case Running(_, _) => assert Enabled(s, FixtureExit(0, Outcome([], [], None)));
      case Responding(id) =>
        RespondingHasAnswer(s, host);
        var body := ResponseBody(s.answers[id]);
        assert body[..|body|] == body;
    }
  }
}
