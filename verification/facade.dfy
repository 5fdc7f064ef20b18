/**
 * The request/response channel between facade clients and the broker: a directory, renames, polling.
 *
 * A step is one file operation of a client or of the broker, one timer tick, or the end of a fixture
 * execution, in any interleaving. A file is written piecemeal - a reader may find any prefix of it - and
 * renamed in one step. Clients follow the client script and pick distinct ids; no file operation fails.
 */
module Facade {
  import opened Common
  import opened FacadeWire

  type Id = string

  /** A request as far as the broker looks at it: `command` is absent when it is not a string. */
  datatype Request = Request(command: Option<string>, args: seq<string>)

  /** What the broker depends on: the JSON parser, the listing of the fixture directory, its two error texts. */
  datatype Host = Host(
    parse: string -> Option<Request>,
    available: set<string>,
    unreadableText: string -> seq<byte>,
    unknownText: seq<byte>)
  {
    predicate Knows(r: Request) {
      r.command.Some? && r.command.value in available
    }

    function Unreadable(text: string): Outcome {
      Outcome([], unreadableText(text), None)
    }

    function Unknown(): Outcome {
      Outcome([], unknownText, Some(127))
    }
  }

  datatype File =
    | RequestTemp(id: Id)
    | RequestFile(id: Id)
    | ResponseTemp(id: Id)
    | ResponseFile(id: Id)

  datatype ClientPhase = Writing | Waiting | Reading(lines: seq<string>) | GaveUp

  datatype Client = Client(text: string, phase: ClientPhase)

  /** Where one poll of the broker is; the id is that of the request it is handling. */
  datatype Work =
    | Listing
    | Choosing
    | Claimed(id: Id)
    | Parsed(id: Id, request: Request)
    | Checked(id: Id, request: Request)
    | Running(id: Id, request: Request)
    | Responding(id: Id)
  {
    function Current(): Option<Id> {
      if Listing? || Choosing? then None else Some(id)
    }
  }

  datatype Poll = Poll(listed: set<Id>, todo: seq<Id>, work: Work)

  /** One fixture execution, with its outcome once it is over. */
  datatype Execution = Execution(id: Id, request: Request, result: Option<Outcome>)

  datatype State = State(
    files: map<File, string>,
    clients: map<Id, Client>,
    polls: seq<Poll>,
    draining: bool,
    stopped: bool,
    seen: set<Id>,
    executions: seq<Execution>,
    answers: map<Id, Outcome>)

  const INITIAL := State(map[], map[], [], false, false, {}, [], map[])

  datatype Event =
    | Start(id: Id, text: string)
    | WriteRequest(id: Id, length: nat)
    | MoveRequest(id: Id)
    | Notice(id: Id)
    | ReadLine(id: Id)
    | GiveUp(id: Id)
    | Tick
    | Stop
    | List(poll: nat, order: seq<Id>)
    | Choose(poll: nat)
    | ReadRequest(poll: nat)
    | RemoveRequest(poll: nat)
    | CheckCommand(poll: nat)
    | FixtureExit(poll: nat, outcome: Outcome)
    | WriteResponse(poll: nat, length: nat)
    | MoveResponse(poll: nat)

  predicate Has(s: State, id: Id, phase: ClientPhase) {
    id in s.clients && s.clients[id].phase == phase
  }

  predicate IsReading(s: State, id: Id) {
    id in s.clients && s.clients[id].phase.Reading? && |s.clients[id].phase.lines| < 3 && ResponseFile(id) in s.files
  }

  /** The requests that a listing of the directory shows: temporary names start with a dot and are passed over. */
  function Requests(files: map<File, string>): set<Id> {
    set f <- files | f.RequestFile? :: f.id
  }

  predicate Enabled(s: State, e: Event) {
    match e
    case Start(id, _) => id !in s.clients
    case WriteRequest(id, length) => Has(s, id, Writing) && length <= |s.clients[id].text|
    case MoveRequest(id) =>
      Has(s, id, Writing) && RequestTemp(id) in s.files && s.files[RequestTemp(id)] == s.clients[id].text
    case Notice(id) => Has(s, id, Waiting) && ResponseFile(id) in s.files
    case ReadLine(id) => IsReading(s, id)
    case GiveUp(id) => Has(s, id, Waiting)
    case Tick => true
    case Stop => true
    case List(i, order) => i < |s.polls| && s.polls[i].work.Listing? && (set id <- order) == Requests(s.files)
    case Choose(i) => i < |s.polls| && s.polls[i].work.Choosing?
    case ReadRequest(i) => i < |s.polls| && s.polls[i].work.Claimed?
    case RemoveRequest(i) => i < |s.polls| && s.polls[i].work.Parsed?
    case CheckCommand(i) => i < |s.polls| && s.polls[i].work.Checked?
    case FixtureExit(i, _) => i < |s.polls| && s.polls[i].work.Running?
    case WriteResponse(i, length) =>
      && i < |s.polls| && s.polls[i].work.Responding? && s.polls[i].work.id in s.answers
      && length <= |ResponseBody(s.answers[s.polls[i].work.id])|
    case MoveResponse(i) =>
      && i < |s.polls| && s.polls[i].work.Responding? && s.polls[i].work.id in s.answers
      && ResponseTemp(s.polls[i].work.id) in s.files
      && s.files[ResponseTemp(s.polls[i].work.id)] == ResponseBody(s.answers[s.polls[i].work.id])
  }

  function WithClient(s: State, id: Id, phase: ClientPhase): State
    requires id in s.clients
  {
    s.(clients := s.clients[id := s.clients[id].(phase := phase)])
  }

  function WithWork(s: State, i: nat, work: Work): State
    requires i < |s.polls|
  {
    s.(polls := s.polls[i := s.polls[i].(work := work)])
  }

  /** The broker has decided what to answer; the response is still to be written. */
  function Answer(s: State, i: nat, id: Id, outcome: Outcome): State
    requires i < |s.polls|
  {
    WithWork(s, i, Responding(id)).(answers := s.answers[id := outcome])
  }

  /** `rename(from, to)`. */
  function Renamed(files: map<File, string>, from: File, to: File): map<File, string>
    requires from in files
  {
    (files - {from})[to := files[from]]
  }

  /** The entry at the front of the listing: passed over when seen before, otherwise claimed. */
  function Chosen(s: State, i: nat): State
    requires i < |s.polls|
  {
    var poll := s.polls[i];
    if poll.todo == [] then s.(polls := s.polls[..i] + s.polls[i + 1..], draining := false)
    else
      var id := poll.todo[0];
      var rest := poll.(todo := poll.todo[1..]);
      if id in s.seen then s.(polls := s.polls[i := rest])
      else s.(polls := s.polls[i := rest.(work := Claimed(id))], seen := s.seen + {id})
  }

  function EndExecution(executions: seq<Execution>, id: Id, outcome: Outcome): seq<Execution> {
    if executions == [] then []
    else
      var n := |executions| - 1;
      var last := executions[n];
      EndExecution(executions[..n], id, outcome)
      + [if last.id == id && last.result.None? then last.(result := Some(outcome)) else last]
  }

  function Step(s: State, e: Event, host: Host): State
    requires Enabled(s, e)
  {
    match e
    case Start(id, text) => s.(clients := s.clients[id := Client(text, Writing)])
    case WriteRequest(id, length) => s.(files := s.files[RequestTemp(id) := s.clients[id].text[..length]])
    case MoveRequest(id) =>
      WithClient(s, id, Waiting).(files := Renamed(s.files, RequestTemp(id), RequestFile(id)))
    case Notice(id) => WithClient(s, id, Reading([]))
    case ReadLine(id) =>
      var lines := s.clients[id].phase.lines;
      WithClient(s, id, Reading(lines + [LineOf(s.files[ResponseFile(id)], |lines|)]))
    case GiveUp(id) => WithClient(s, id, GaveUp)
    case Tick =>
      if s.draining || s.stopped then s
      else s.(draining := true, polls := s.polls + [Poll({}, [], Listing)])
    case Stop => s.(stopped := true)
    case List(i, order) =>
      s.(polls := s.polls[i := Poll(Requests(s.files), order, Choosing)])
    case Choose(i) => Chosen(s, i)
    case ReadRequest(i) =>
      var id := s.polls[i].work.id;
      var text := if RequestFile(id) in s.files then s.files[RequestFile(id)] else "";
      (match host.parse(text)
       case None => Answer(s, i, id, host.Unreadable(text))
       case Some(r) => WithWork(s, i, Parsed(id, r)))
    case RemoveRequest(i) =>
      var work := s.polls[i].work;
      WithWork(s, i, Checked(work.id, work.request)).(files := s.files - {RequestFile(work.id)})
    case CheckCommand(i) =>
      var work := s.polls[i].work;
      if host.Knows(work.request)
      then WithWork(s, i, Running(work.id, work.request))
           .(executions := s.executions + [Execution(work.id, work.request, None)])
      else Answer(s, i, work.id, host.Unknown())
    case FixtureExit(i, outcome) =>
      var id := s.polls[i].work.id;
      Answer(s, i, id, outcome).(executions := EndExecution(s.executions, id, outcome))
    case WriteResponse(i, length) =>
      var id := s.polls[i].work.id;
      s.(files := s.files[ResponseTemp(id) := ResponseBody(s.answers[id])[..length]])
    case MoveResponse(i) =>
      var id := s.polls[i].work.id;
      WithWork(s, i, Choosing).(files := Renamed(s.files, ResponseTemp(id), ResponseFile(id)))
  }

  /** The state after these events, if each of them was enabled when it came. */
  function Run(events: seq<Event>, host: Host): Option<State> {
    if events == [] then Some(INITIAL)
    else
      match Run(events[..|events| - 1], host)
      case None => None
      case Some(before) =>
        var e := events[|events| - 1];
        if Enabled(before, e) then Some(Step(before, e, host)) else None
  }
}
