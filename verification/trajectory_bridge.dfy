/** `deriveTrajectoryEvents`: one pass over a session's log that reports every completed tool call. */
module TrajectoryBridge {
  import opened Common
  import opened SessionEvents
  import opened SessionStats
  import opened ToolTime
  import SessionLog

  const BASH_TOOL_NAME := "bash"

  /** The largest time, in either direction, that a `Date` can hold; beyond it `toISOString` throws. */
  const MAX_DATE_MS := 8_640_000_000_000_000

  datatype TrajectoryEvent =
    | ToolCallDone(
        seqNo: nat, ts: int, name: Option<string>, input: Value, output: Message, durationMs: nat, error: Option<string>)
    | ShellCommand(seqNo: nat, ts: int, command: Value, cwd: Value, stdout: string, durationMs: nat)

  datatype PendingCall = PendingCall(name: Option<string>, input: Value, time: int)

  datatype RangeError = InvalidTime(at: nat)

  /** `json` is the parser: `None` when the text is not JSON, and then the raw text is kept. */
  function ParseArguments(arguments: Arguments, json: string -> Option<Value>): Value {
    match arguments
    case NoArguments => Null
    case ParsedArguments(value) => value
    case RawArguments(raw) => if json(raw).Some? then json(raw).value else Text(raw)
  }

  function JoinedTexts(blocks: seq<InnerBlock>): string {
    SessionLog.JoinLines(Texts(blocks))
  }

  function Texts(blocks: seq<InnerBlock>): seq<string> {
    if blocks == [] then []
    else
      Texts(blocks[..|blocks| - 1]) + (match blocks[|blocks| - 1] case TextBlock(text) => [text] case OtherInner => [])
  }

  /** The text of the first content block, when that block is a tool result. */
  function ExtractBashResult(message: Message): Option<string> {
    match message.content
    case None => None
    case Some(content) =>
      if content == [] || content[0].OtherBlock? then None else Some(JoinedTexts(content[0].content))
  }

  /** `input?.name ?? null`. */
  function Field(input: Value, name: string): Value {
    if input.Object? && name in input.fields then input.fields[name] else Null
  }

  predicate DateInRange(time: int) {
    -MAX_DATE_MS <= time <= MAX_DATE_MS
  }

  function CallRecord(event: Event, json: string -> Option<Value>): PendingCall
    requires event.body.ToolCall?
  {
    PendingCall(event.body.name, ParseArguments(event.body.arguments, json), event.time)
  }

  /** What one completed call adds to an output that already has `already` entries. */
  function Report(call: PendingCall, result: Event, already: nat): seq<TrajectoryEvent>
    requires ResultId(result.body).Some?
  {
    var message := result.body.message.value;
    var duration := AtLeastZero(result.time - call.time);
    var error :=
      match result.body.error
      case None => None
      case Some(info) => Some(info.name + ": " + info.code);
    var bash := ExtractBashResult(message);
    [ToolCallDone(already + 1, result.time, call.name, call.input, message, duration, error)]
    + (if call.name == Some(BASH_TOOL_NAME) && bash.Some?
       then [ShellCommand(already + 2, result.time, Field(call.input, "command"), Field(call.input, "workdir"),
                          bash.value, duration)]
       else [])
  }

  /** The report on a whole log, from the pairs the log contains rather than from a pending map. */
  function Derived(events: seq<Event>, n: nat, json: string -> Option<Value>): seq<TrajectoryEvent>
    requires n <= |events|
  {
    if n == 0 then []
    else
      var before := Derived(events, n - 1, json);
      match PairedCall(Bodies(events), n - 1, Bridge)
      case None => before
      case Some(i) => before + Report(CallRecord(events[i], json), events[n - 1], |before|)
  }

  ghost predicate PendingMatches(
      pending: map<string, PendingCall>, events: seq<Event>, n: nat, json: string -> Option<Value>)
    requires n <= |events|
  {
    forall id ::
      var call := CallBefore(Bodies(events), n, id, Bridge);
      && (id in pending <==> call.Some?)
      && (call.Some? ==> pending[id] == CallRecord(events[call.value], json))
  }

  /** One event's effect on the pending calls: a call with an id is filed, a result removes its call. */
  lemma PendingStep(pending: map<string, PendingCall>, events: seq<Event>, n: nat, json: string -> Option<Value>)
    requires n < |events| && PendingMatches(pending, events, n, json)
    ensures var b := events[n].body;
            var next := if b.ToolCall? && b.callId.Some? then pending[b.callId.value := CallRecord(events[n], json)]
                        else if ResultId(b).Some? then pending - {ResultId(b).value}
                        else pending;
            PendingMatches(next, events, n + 1, json)
  {
    hide ParseArguments;
  }

  lemma NothingPendingAtStart(events: seq<Event>, json: string -> Option<Value>)
    ensures PendingMatches(map[], events, 0, json)
  {
  }

  lemma PendingFound(
      pending: map<string, PendingCall>, events: seq<Event>, n: nat, id: string, json: string -> Option<Value>)
    requires n <= |events| && PendingMatches(pending, events, n, json)
    ensures var call := CallBefore(Bodies(events), n, id, Bridge);
            && (id in pending <==> call.Some?)
            && (call.Some? ==> pending[id] == CallRecord(events[call.value], json))
  {
  }

  // ----- What the output says about the log, by the log's own fields -----

  /** The call at `call` and the result at `result` are reported from `at` up to `end`. */
  datatype Place = Place(call: nat, result: nat, at: nat, end: nat)

  ghost predicate IsPair(events: seq<Event>, i: nat, j: nat) {
    exists id :: BridgePairs(Bodies(events), i, j, id)
  }

  /** The arguments as a value: the text parsed when it is JSON, and left as text when it is not. */
  ghost predicate IsInput(input: Value, arguments: Arguments, json: string -> Option<Value>) {
    match arguments
    case NoArguments => input == Null
    case ParsedArguments(value) => input == value
    case RawArguments(raw) => json(raw) == Some(input) || (json(raw) == None && input == Text(raw))
  }

  ghost predicate IsProperty(value: Value, input: Value, name: string) {
    if input.Object? && name in input.fields then value == input.fields[name] else value == Null
  }

  ghost predicate IsErrorText(text: Option<string>, error: Option<ErrorInfo>) {
    if error.None? then text.None? else text == Some(error.value.name + ": " + error.value.code)
  }

  /** The texts of the text blocks, all of them, in order. */
  ghost predicate AreTexts(texts: seq<string>, blocks: seq<InnerBlock>) {
    exists at: seq<nat> :: Selects(at, texts, blocks)
  }

  ghost predicate Selects(at: seq<nat>, texts: seq<string>, blocks: seq<InnerBlock>) {
    && |at| == |texts|
    && (forall k | 0 <= k < |at| :: at[k] < |blocks| && blocks[at[k]] == TextBlock(texts[k]))
    && (forall k, l | 0 <= k < l < |at| :: at[k] < at[l])
    && (forall b: nat | b < |blocks| && blocks[b].TextBlock? :: b in at)
  }

  /** The first block of the result's message is a tool result, and the tool was the shell. */
  predicate WantsShell(call: Body, result: Body) {
    && call.ToolCall? && call.name == Some("bash")
    && result.ToolResult? && result.message.Some? && result.message.value.content.Some?
    && result.message.value.content.value != [] && result.message.value.content.value[0].ToolResultBlock?
  }

  ghost predicate IsToolCallEntry(
      entry: TrajectoryEvent, number: nat, call: Event, result: Event, json: string -> Option<Value>)
    requires call.body.ToolCall? && result.body.ToolResult?
  {
    && entry.ToolCallDone? && entry.seqNo == number && entry.ts == result.time
    && entry.name == call.body.name && IsInput(entry.input, call.body.arguments, json)
    && Some(entry.output) == result.body.message
    && entry.durationMs == Elapsed(call.time, result.time)
    && IsErrorText(entry.error, result.body.error)
  }

  ghost predicate IsShellEntry(entry: TrajectoryEvent, number: nat, call: Event, result: Event, input: Value)
    requires WantsShell(call.body, result.body)
  {
    && entry.ShellCommand? && entry.seqNo == number && entry.ts == result.time
    && IsProperty(entry.command, input, "command") && IsProperty(entry.cwd, input, "workdir")
    && (exists texts :: AreTexts(texts, result.body.message.value.content.value[0].content)
                        && entry.stdout == SessionLog.JoinLines(texts))
    && entry.durationMs == Elapsed(call.time, result.time)
  }

  ghost predicate IsReported(out: seq<TrajectoryEvent>, p: Place, events: seq<Event>, json: string -> Option<Value>) {
    && p.call < |events| && p.result < |events|
    && var call, result := events[p.call], events[p.result];
    && call.body.ToolCall? && result.body.ToolResult?
    && p.end == p.at + (if WantsShell(call.body, result.body) then 2 else 1) <= |out|
    && IsToolCallEntry(out[p.at], p.at + 1, call, result, json)
    && (WantsShell(call.body, result.body) ==> IsShellEntry(out[p.at + 1], p.at + 2, call, result, out[p.at].input))
  }

  /** The end of what is reported before the `k`-th place. */
  function EndBefore(places: seq<Place>, k: nat): nat
    requires k <= |places|
  {
    if k == 0 then 0 else places[k - 1].end
  }

  /** Every place is a pair of the first `n` events, and what stands there is its report. */
  ghost predicate AllReported(
      out: seq<TrajectoryEvent>, events: seq<Event>, n: nat, json: string -> Option<Value>, places: seq<Place>)
  {
    forall k | 0 <= k < |places| ::
      IsReported(out, places[k], events, json) && places[k].result < n && IsPair(events, places[k].call, places[k].result)
  }

  /** In the order of the results, one report right behind the other, up to the end of the output. */
  predicate InOrder(length: nat, places: seq<Place>) {
    && (forall k, l | 0 <= k < l < |places| :: places[k].result < places[l].result)
    && (forall k | 0 <= k < |places| :: places[k].at == EndBefore(places, k))
    && length == EndBefore(places, |places|)
  }

  /** Every pair of the first `n` events has its place. */
  ghost predicate AllPlaced(events: seq<Event>, n: nat, places: seq<Place>) {
    forall i: nat, j: nat | j < n && IsPair(events, i, j) :: HasPlace(places, i, j)
  }

  ghost predicate HasPlace(places: seq<Place>, i: nat, j: nat) {
    exists k | 0 <= k < |places| :: places[k].call == i && places[k].result == j
  }

  /** The output tells exactly the pairs of the first `n` events, each once, and nothing else. */
  ghost predicate Tells(
      out: seq<TrajectoryEvent>, events: seq<Event>, n: nat, json: string -> Option<Value>, places: seq<Place>)
  {
    && AllReported(out, events, n, json, places)
    && InOrder(|out|, places)
    && AllPlaced(events, n, places)
  }

  lemma TellsNothing(events: seq<Event>, json: string -> Option<Value>)
    ensures Tells([], events, 0, json, [])
  {
  }

  /** An event that completes no call changes nothing. */
  lemma TellsTheSame(
      out: seq<TrajectoryEvent>, events: seq<Event>, n: nat, json: string -> Option<Value>, places: seq<Place>)
    requires n < |events| && Tells(out, events, n, json, places)
    requires PairedCall(Bodies(events), n, Bridge) == None
    ensures Tells(out, events, n + 1, json, places)
  {
    hide IsReported, InOrder, IsPair, HasPlace;
    assert AllReported(out, events, n + 1, json, places);
    NoPairsAt(events, n);
  }

  lemma NoPairsAt(events: seq<Event>, n: nat)
    requires n < |events| && PairedCall(Bodies(events), n, Bridge) == None
    ensures forall i: nat :: !IsPair(events, i, n)
  {
    forall i: nat
      ensures !IsPair(events, i, n)
    {
      PairedCallExactly(Bodies(events), i, n);
    }
  }

  lemma ReportedStays(
      out: seq<TrajectoryEvent>, more: seq<TrajectoryEvent>, p: Place, events: seq<Event>, json: string -> Option<Value>)
    requires IsReported(out, p, events, json)
    ensures IsReported(out + more, p, events, json)
  {
    hide IsToolCallEntry, IsShellEntry, WantsShell;
  }

  lemma {:induction false} TextsAreSelected(blocks: seq<InnerBlock>) returns (at: seq<nat>)
    ensures Selects(at, Texts(blocks), blocks)
  {
    hide Selects;
    if blocks == [] {
      at := [];
      SelectsNothing();
    } else {
      var n := |blocks| - 1;
      at := TextsAreSelected(blocks[..n]);
      if blocks[n].TextBlock? {
        SelectsOneMore(at, Texts(blocks[..n]), blocks);
        at := at + [n];
      } else {
        SelectsTheSame(at, Texts(blocks[..n]), blocks);
        assert Texts(blocks[..n]) + [] == Texts(blocks[..n]);
      }
    }
  }

  lemma SelectsNothing()
    ensures Selects([], [], [])
  {
  }

  lemma SelectsTheSame(at: seq<nat>, texts: seq<string>, blocks: seq<InnerBlock>)
    requires blocks != [] && !blocks[|blocks| - 1].TextBlock? && Selects(at, texts, blocks[..|blocks| - 1])
    ensures Selects(at, texts, blocks)
  {
    assert forall b | 0 <= b < |blocks| - 1 :: blocks[..|blocks| - 1][b] == blocks[b];
  }

  lemma SelectsOneMore(at: seq<nat>, texts: seq<string>, blocks: seq<InnerBlock>)
    requires blocks != [] && blocks[|blocks| - 1].TextBlock? && Selects(at, texts, blocks[..|blocks| - 1])
    ensures Selects(at + [|blocks| - 1], texts + [blocks[|blocks| - 1].text], blocks)
  {
    var n := |blocks| - 1;
    var all := at + [n];
    assert forall b | 0 <= b < n :: blocks[..n][b] == blocks[b];
    assert all[|at|] == n;
  }

  lemma ReportTells(call: Event, result: Event, already: nat, json: string -> Option<Value>)
    requires call.body.ToolCall? && ResultId(result.body).Some?
    ensures var report := Report(CallRecord(call, json), result, already);
            && |report| == (if WantsShell(call.body, result.body) then 2 else 1)
            && IsToolCallEntry(report[0], already + 1, call, result, json)
            && (WantsShell(call.body, result.body) ==>
                  IsShellEntry(report[1], already + 2, call, result, report[0].input))
  {
    if WantsShell(call.body, result.body) {
      var blocks := result.body.message.value.content.value[0].content;
      var at := TextsAreSelected(blocks);
      assert AreTexts(Texts(blocks), blocks);
    }
  }

  lemma TellsOneMore(
      out: seq<TrajectoryEvent>, events: seq<Event>, n: nat, json: string -> Option<Value>, places: seq<Place>, i: nat)
    requires n < |events| && Tells(out, events, n, json, places)
    requires PairedCall(Bodies(events), n, Bridge) == Some(i)
    ensures var report := Report(CallRecord(events[i], json), events[n], |out|);
            Tells(out + report, events, n + 1, json, places + [Place(i, n, |out|, |out| + |report|)])
  {
    hide Report, CallRecord, IsReported, IsPair, InOrder, AllReported, AllPlaced, CallBefore, BridgePairs;
    var report := Report(CallRecord(events[i], json), events[n], |out|);
    var place := Place(i, n, |out|, |out| + |report|);
    ReportIsReported(out, events, n, json, i);
    ResultsAreBefore(out, events, n, json, places);
    AllReportedOneMore(out, report, events, n, json, places, i);
    PlacedOneMore(|out|, places, place);
    AllPlacedOneMore(events, n, places, place);
  }

  lemma ReportIsReported(out: seq<TrajectoryEvent>, events: seq<Event>, n: nat, json: string -> Option<Value>, i: nat)
    requires n < |events| && PairedCall(Bodies(events), n, Bridge) == Some(i)
    ensures var report := Report(CallRecord(events[i], json), events[n], |out|);
            IsReported(out + report, Place(i, n, |out|, |out| + |report|), events, json)
  {
    var report := Report(CallRecord(events[i], json), events[n], |out|);
    ReportTells(events[i], events[n], |out|, json);
    hide Report, CallRecord, IsToolCallEntry, IsShellEntry, WantsShell, IsReported;
    NewPlaceIsReported(out, report, events, n, json, i);
  }

  lemma ResultsAreBefore(
      out: seq<TrajectoryEvent>, events: seq<Event>, n: nat, json: string -> Option<Value>, places: seq<Place>)
    requires AllReported(out, events, n, json, places)
    ensures forall k | 0 <= k < |places| :: places[k].result < n
  {
    hide IsReported, IsPair;
  }

  lemma NewPlaceIsReported(
      out: seq<TrajectoryEvent>, report: seq<TrajectoryEvent>, events: seq<Event>, n: nat, json: string -> Option<Value>,
      i: nat)
    requires i < n < |events| && events[i].body.ToolCall? && ResultId(events[n].body).Some?
    requires |report| == (if WantsShell(events[i].body, events[n].body) then 2 else 1)
    requires IsToolCallEntry(report[0], |out| + 1, events[i], events[n], json)
    requires WantsShell(events[i].body, events[n].body) ==>
               IsShellEntry(report[1], |out| + 2, events[i], events[n], report[0].input)
    ensures IsReported(out + report, Place(i, n, |out|, |out| + |report|), events, json)
  {
    hide IsToolCallEntry, IsShellEntry, WantsShell;
    assert (out + report)[|out|] == report[0];
    if |report| == 2 {
      assert (out + report)[|out| + 1] == report[1];
    }
  }

  lemma AllReportedOneMore(
      out: seq<TrajectoryEvent>, report: seq<TrajectoryEvent>, events: seq<Event>, n: nat, json: string -> Option<Value>,
      places: seq<Place>, i: nat)
    requires AllReported(out, events, n, json, places) && n < |events|
    requires IsReported(out + report, Place(i, n, |out|, |out| + |report|), events, json)
    requires PairedCall(Bodies(events), n, Bridge) == Some(i)
    ensures AllReported(out + report, events, n + 1, json, places + [Place(i, n, |out|, |out| + |report|)])
  {
    hide IsReported, IsPair;
    PairsAt(events, n, i);
    forall k | 0 <= k < |places|
      ensures IsReported(out + report, places[k], events, json)
    {
      ReportedStays(out, report, places[k], events, json);
    }
  }

  lemma PlacedOneMore(length: nat, places: seq<Place>, place: Place)
    requires InOrder(length, places) && place.at == length
    requires forall k | 0 <= k < |places| :: places[k].result < place.result
    ensures InOrder(place.end, places + [place])
  {
  }

  lemma AllPlacedOneMore(events: seq<Event>, n: nat, places: seq<Place>, place: Place)
    requires n < |events| && AllPlaced(events, n, places)
    requires place.result == n && PairedCall(Bodies(events), n, Bridge) == Some(place.call)
    ensures AllPlaced(events, n + 1, places + [place])
  {
    hide IsPair;
    PairsAt(events, n, place.call);
    var all := places + [place];
    forall i: nat, j: nat | j < n + 1 && IsPair(events, i, j)
      ensures HasPlace(all, i, j)
    {
      if j == n {
        assert all[|places|] == place;
      } else {
        assert HasPlace(places, i, j);
        var k :| 0 <= k < |places| && places[k].call == i && places[k].result == j;
        assert all[k] == places[k];
      }
    }
  }

  lemma PairsAt(events: seq<Event>, n: nat, i: nat)
    requires n < |events| && PairedCall(Bodies(events), n, Bridge) == Some(i)
    ensures forall c: nat :: IsPair(events, c, n) <==> c == i
  {
    forall c: nat
      ensures IsPair(events, c, n) <==> c == i
    {
      PairedCallExactly(Bodies(events), c, n);
    }
  }

  lemma {:induction false} DerivedTells(events: seq<Event>, n: nat, json: string -> Option<Value>)
    returns (places: seq<Place>)
    requires n <= |events|
    ensures Tells(Derived(events, n, json), events, n, json, places)
  {
    hide Tells, Report, PairedCall;
    if n == 0 {
      TellsNothing(events, json);
      places := [];
    } else {
      places := DerivedTells(events, n - 1, json);
      var before := Derived(events, n - 1, json);
      match PairedCall(Bodies(events), n - 1, Bridge) {
        case None => TellsTheSame(before, events, n - 1, json, places);
        case Some(i) =>
          TellsOneMore(before, events, n - 1, json, places, i);
          places := places + [Place(i, n - 1, |before|, |Derived(events, n, json)|)];
      }
    }
  }

  /** The result at `j` completes a call, at a time that `toISOString` takes. */
  ghost predicate IsDated(events: seq<Event>, j: nat)
    requires j < |events|
  {
    (exists i: nat :: IsPair(events, i, j)) ==> -8_640_000_000_000_000 <= events[j].time <= 8_640_000_000_000_000
  }

  lemma DatedExactly(events: seq<Event>, j: nat)
    requires j < |events|
    ensures IsDated(events, j) <==> (PairedCall(Bodies(events), j, Bridge).Some? ==> DateInRange(events[j].time))
  {
    var call := PairedCall(Bodies(events), j, Bridge);
    hide IsPair;
    if call.Some? {
      PairsAt(events, j, call.value);
      assert IsPair(events, call.value, j);
    } else {
      NoPairsAt(events, j);
    }
  }

  method DeriveTrajectoryEvents(events: seq<Event>, json: string -> Option<Value>)
    returns (r: Result<seq<TrajectoryEvent>, RangeError>)
    ensures r.Ok? <==> forall j: nat | j < |events| :: IsDated(events, j)
    ensures r.Ok? ==> exists places :: Tells(r.value, events, |events|, json, places)
    ensures r.Err? ==> r.error.at < |events| && !IsDated(events, r.error.at)
                       && forall j: nat | j < r.error.at :: IsDated(events, j)
    ensures r.Ok? ==> r.value == Derived(events, |events|, json)
  {
    hide PendingMatches, Report, CallRecord, CallBefore, Tells, IsDated, DateInRange;
    var out: seq<TrajectoryEvent> := [];
    var seqNo := 0;
    var pending: map<string, PendingCall> := map[];
    ghost var bodies := Bodies(events);
    NothingPendingAtStart(events, json);
    for n := 0 to |events|
      invariant PendingMatches(pending, events, n, json)
      invariant out == Derived(events, n, json)
      invariant seqNo == |out|
      invariant forall j: nat | j < n :: IsDated(events, j)
    {
      var event := events[n];
      DatedExactly(events, n);
      PendingStep(pending, events, n, json);
      if event.body.ToolCall? {
        if event.body.callId.Some? {
          pending := pending[event.body.callId.value := CallRecord(event, json)];
        }
        continue;
      }
      var callId := ResultId(event.body);
      if callId.None? {
        continue;
      }
      assert PairedCall(bodies, n, Bridge) == CallBefore(bodies, n, callId.value, Bridge);
      PendingFound(pending, events, n, callId.value, json);
      if callId.value !in pending {
        assert pending - {callId.value} == pending;
        continue;
      }
      var call := pending[callId.value];
      pending := pending - {callId.value};
      if !DateInRange(event.time) {
        return Err(InvalidTime(n));
      }
      var report := Report(call, event, seqNo);
      out := out + report;
      seqNo := seqNo + |report|;
    }
    ghost var places := DerivedTells(events, |events|, json);
    return Ok(out);
  }

  // ----- Numbering and totals -----

  /** `seq` counts 1, 2, 3, ... over the whole output. */
  lemma {:induction false} OutputIsNumbered(events: seq<Event>, n: nat, json: string -> Option<Value>)
    requires n <= |events|
    ensures forall k | 0 <= k < |Derived(events, n, json)| :: Derived(events, n, json)[k].seqNo == k + 1
  {
    if n > 0 {
      OutputIsNumbered(events, n - 1, json);
    }
  }

  /** The sum of `duration_ms` over the `tool_call` entries. */
  function ToolCallMs(out: seq<TrajectoryEvent>): nat {
    if out == [] then 0
    else
      var last := out[|out| - 1];
      ToolCallMs(out[..|out| - 1]) + (if last.ToolCallDone? then last.durationMs else 0)
  }

  lemma ToolCallMsOfReport(out: seq<TrajectoryEvent>, call: PendingCall, result: Event, already: nat)
    requires ResultId(result.body).Some?
    ensures ToolCallMs(out + Report(call, result, already)) == ToolCallMs(out) + AtLeastZero(result.time - call.time)
  {
    var report := Report(call, result, already);
    assert (out + [report[0]])[..|out|] == out;
    if |report| == 2 {
      assert (out + report)[..|out| + 1] == out + [report[0]];
    } else {
      assert out + report == out + [report[0]];
    }
  }

  lemma {:induction false} ToolCallMsIsPairedMs(events: seq<Event>, n: nat, json: string -> Option<Value>)
    requires n <= |events|
    ensures ToolCallMs(Derived(events, n, json)) == PairedMs(events, n, Bridge)
  {
    if n > 0 {
      ToolCallMsIsPairedMs(events, n - 1, json);
      var call := PairedCall(Bodies(events), n - 1, Bridge);
      if call.Some? {
        ToolCallMsOfReport(Derived(events, n - 1, json), CallRecord(events[call.value], json), events[n - 1],
                           |Derived(events, n - 1, json)|);
      }
    }
  }

  // ----- Agreement with the statistics fold -----

  predicate CallsCarryIds(bodies: seq<Body>) {
    forall b <- bodies :: b.ToolCall? ==> b.callId.Some?
  }

  /** A turn ended after the call at `i` and before `j`. */
  predicate TurnEndsBetween(bodies: seq<Body>, i: nat, j: nat)
    requires j <= |bodies|
  {
    exists k | i < k < j :: bodies[k].TurnEnd?
  }

  /** The fold alone takes this event for the end of an earlier call with this id, or for a new one. */
  predicate FoldAloneSees(b: Body, id: string) {
    Reader.Fold.Forgets(b) || (b.ToolCall? && b.callId.None? && Reader.Fold.CallKey(None) == Some(id))
  }

  /**
   * The two lookups, exactly: the bridge finds the call the fold finds if and only if that call carries
   * an id, and the fold finds the call the bridge finds if and only if nothing that the fold alone sees
   * came since.
   */
  lemma {:induction false} ReadersCompared(bodies: seq<Body>, j: nat, id: string)
    requires j <= |bodies|
    ensures var fold, bridge := CallBefore(bodies, j, id, Fold), CallBefore(bodies, j, id, Bridge);
            && (fold.Some? ==> (bridge == fold <==> bodies[fold.value].callId.Some?))
            && (bridge.Some? ==> (fold == bridge <==> forall k | bridge.value < k < j :: !FoldAloneSees(bodies[k], id)))
  {
    if j > 0 {
      ReadersCompared(bodies, j - 1, id);
    }
  }

  /** No result answers to the text that a missing id turns into, unless there is no missing id. */
  predicate IdsAreUnambiguous(bodies: seq<Body>) {
    CallsCarryIds(bodies) || forall b <- bodies :: ResultId(b) != Reader.Fold.CallKey(None)
  }

  /**
   * At every point of a log, what the fold still has pending the bridge has pending too, dispatched at the
   * same time - all but the one entry under which the fold files every call without an id.
   */
  lemma FoldPendingIsSubmap(
      events: seq<Event>, n: nat, pending: map<string, PendingCall>, json: string -> Option<Value>)
    requires n <= |events| && PendingMatches(pending, events, n, json)
    ensures var fold := FoldEvents(INITIAL, events[..n]).pendingCalls;
            && (forall id <- fold ::
                  || (id in pending && pending[id].time == fold[id])
                  || (Some(id) == Reader.Fold.CallKey(None) && !CallsCarryIds(Bodies(events))))
            && (CallsCarryIds(Bodies(events)) ==> fold.Keys <= pending.Keys)
  {
    var bodies := Bodies(events);
    forall id <- FoldEvents(INITIAL, events[..n]).pendingCalls
      ensures (id in pending && pending[id].time == FoldEvents(INITIAL, events[..n]).pendingCalls[id])
           || (Some(id) == Reader.Fold.CallKey(None) && !CallsCarryIds(bodies))
    {
      PendingIsCallBefore(events, n, id);
      ReadersCompared(bodies, n, id);
      CallBeforeMeaning(bodies, n, id, Fold, CallBefore(bodies, n, id, Fold).value);
      assert bodies[CallBefore(bodies, n, id, Fold).value] in bodies;
    }
  }

  /** The result at `j` is paired, by the bridge alone, with a call from before the end of a turn. */
  predicate StalePair(bodies: seq<Body>, j: nat)
    requires j < |bodies|
  {
    var call := PairedCall(bodies, j, Bridge);
    call.Some? && TurnEndsBetween(bodies, call.value, j)
  }

  function StaleMs(events: seq<Event>, n: nat): nat
    requires n <= |events|
  {
    if n == 0 then 0
    else StaleMs(events, n - 1) + (if StalePair(Bodies(events), n - 1) then PairMs(events, n - 1, Bridge) else 0)
  }

  /** With unambiguous ids, only the end of a turn makes the fold miss a pair, and it finds no pair of its own. */
  lemma PairsCompared(bodies: seq<Body>, j: nat)
    requires j < |bodies| && IdsAreUnambiguous(bodies)
    ensures var fold, bridge := PairedCall(bodies, j, Fold), PairedCall(bodies, j, Bridge);
            && (fold.Some? ==> bridge == fold)
            && (bridge.Some? ==> (fold.Some? <==> !TurnEndsBetween(bodies, bridge.value, j)))
  {
    var id := ResultId(bodies[j]);
    if id.Some? {
      assert bodies[j] in bodies && forall k | 0 <= k < j :: bodies[k] in bodies;
      ReadersCompared(bodies, j, id.value);
      var fold := CallBefore(bodies, j, id.value, Fold);
      if fold.Some? {
        CallBeforeMeaning(bodies, j, id.value, Fold, fold.value);
      }
    }
  }

  lemma {:induction false} PairedMsCompared(events: seq<Event>, n: nat)
    requires n <= |events| && IdsAreUnambiguous(Bodies(events))
    ensures PairedMs(events, n, Bridge) == PairedMs(events, n, Fold) + StaleMs(events, n)
  {
    hide PairedCall, TurnEndsBetween, IdsAreUnambiguous;
    if n > 0 {
      PairedMsCompared(events, n - 1);
      PairsCompared(Bodies(events), n - 1);
    }
  }

  lemma {:induction false} StaleMsIsZeroExactly(events: seq<Event>, n: nat)
    requires n <= |events|
    ensures StaleMs(events, n) == 0 <==>
            forall j | 0 <= j < n :: StalePair(Bodies(events), j) ==> PairMs(events, j, Bridge) == 0
  {
    if n > 0 {
      StaleMsIsZeroExactly(events, n - 1);
    }
  }

  /** Under this timing the bridge reports at least the tool time the fold counts. */
  ghost predicate ReportsEnough(bodies: seq<Body>, times: seq<int>, json: string -> Option<Value>) {
    |times| == |bodies| && Sorted(times) ==>
      var events := Timed(bodies, times);
      ToolCallMs(Derived(events, |events|, json)) >= FoldSessionStats(events).toolMs
  }

  ghost predicate ReportsTheSame(bodies: seq<Body>, times: seq<int>, json: string -> Option<Value>) {
    |times| == |bodies| && Sorted(times) ==>
      var events := Timed(bodies, times);
      ToolCallMs(Derived(events, |events|, json)) == FoldSessionStats(events).toolMs
  }

  lemma ReportedAndCounted(events: seq<Event>, json: string -> Option<Value>)
    ensures ToolCallMs(Derived(events, |events|, json)) == PairedMs(events, |events|, Bridge)
    ensures FoldSessionStats(events).toolMs == PairedMs(events, |events|, Fold)
  {
    hide Derived, ToolCallMs, PairedMs, ApplyEvent;
    assert events[..|events|] == events;
    ToolCallMsIsPairedMs(events, |events|, json);
    ToolMsIsPairedMs(events, |events|);
  }

  /**
   * The comparison, exactly, on every log, with or without ids. Under every timing of a given sequence
   * of events the bridge reports at least the tool time the fold counts if and only if at every gap at
   * least as many of its pairs run as of the fold's; and the two are the same under every timing if and
   * only if as many run.
   */
  lemma BridgeReportsAtLeastExactly(bodies: seq<Body>, json: string -> Option<Value>)
    requires bodies != []
    ensures (forall times: seq<int> :: ReportsEnough(bodies, times, json)) <==> OverlapsNoMore(bodies, Fold, Bridge)
    ensures (forall times: seq<int> :: ReportsTheSame(bodies, times, json))
       <==> OverlapsNoMore(bodies, Fold, Bridge) && OverlapsNoMore(bodies, Bridge, Fold)
  {
    hide Derived, ToolCallMs, PairedMs, FoldSessionStats, OverlapsNoMore;
    forall times: seq<int>
      ensures ReportsEnough(bodies, times, json) <==> TakesNoMore(bodies, Fold, Bridge, times)
      ensures ReportsTheSame(bodies, times, json)
         <==> TakesNoMore(bodies, Fold, Bridge, times) && TakesNoMore(bodies, Bridge, Fold, times)
    {
      if |times| == |bodies| {
        ReportedAndCounted(Timed(bodies, times), json);
      }
    }
    ReadersTimeExactly(bodies, Fold, Bridge);
    ReadersTimeExactly(bodies, Bridge, Fold);
  }

  /**
   * With unambiguous ids the difference is exactly the time of the pairs that straddle the end of a
   * turn, so the two agree if and only if every such pair took no time.
   */
  lemma BridgeReportsAtLeastToolMs(events: seq<Event>, json: string -> Option<Value>)
    requires IdsAreUnambiguous(Bodies(events))
    ensures var reported, counted := ToolCallMs(Derived(events, |events|, json)), FoldSessionStats(events).toolMs;
            && reported == counted + StaleMs(events, |events|)
            && (reported == counted <==>
                forall j | 0 <= j < |events| :: StalePair(Bodies(events), j) ==> PairMs(events, j, Bridge) == 0)
  {
    hide Derived, ToolCallMs, StaleMs, StalePair, PairMs, PairedMs, FoldSessionStats, IdsAreUnambiguous;
    ReportedAndCounted(events, json);
    PairedMsCompared(events, |events|);
    StaleMsIsZeroExactly(events, |events|);
  }

  /** With unambiguous ids the condition for "at least" always holds. */
  lemma {:induction false} UnambiguousOverlap(bodies: seq<Body>, n: nat, g: nat)
    requires n <= |bodies| && IdsAreUnambiguous(bodies)
    ensures Overlap(bodies, n, g, Fold) <= Overlap(bodies, n, g, Bridge)
  {
    hide PairedCall, TurnEndsBetween, IdsAreUnambiguous;
    if n > 0 {
      UnambiguousOverlap(bodies, n - 1, g);
      PairsCompared(bodies, n - 1);
    }
  }

  /**
   * A witness that it can fail: the fold files a call without an id under the name "undefined", where a
   * result carrying that text finds it, while the bridge never pairs it.
   */
  lemma CallsWithoutIdsDisagree(json: string -> Option<Value>)
    ensures exists events: seq<Event> ::
              && !CallsCarryIds(Bodies(events))
              && FoldSessionStats(events).toolMs == 5 && Derived(events, |events|, json) == []
  {
    var e0 := Event(0, ToolCall(None, None, NoArguments));
    var e1 := Event(5, ToolResult(Some(Message(Some("undefined"), None)), None));
    var events := [e0, e1];
    assert Bodies(events)[0] == e0.body;
    assert CallBefore(Bodies(events), 1, "undefined", Bridge) == None;
    assert Derived(events, 1, json) == [];
    assert [e0][..0] == [] && events[..1] == [e0];
    assert FoldEvents(INITIAL, [e0]) == ApplyEvent(INITIAL, e0);
    assert FoldSessionStats(events) == ApplyEvent(ApplyEvent(INITIAL, e0), e1).stats;
    assert FoldSessionStats(events).toolMs == 5;
  }
}
