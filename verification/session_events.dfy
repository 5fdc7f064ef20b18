/**
 * The raw session events both the statistics fold and the trajectory bridge read,
 * and which tool call a tool result belongs to.
 */
module SessionEvents {
  import opened Common

  /** A value that came out of `JSON.parse`; `Opaque` stands for the shapes nobody looks inside. */
  datatype Value = Null | Text(text: string) | Object(fields: map<string, Value>) | Opaque(id: nat)

  datatype Chunk =
    | NotAnObject
    | TextDelta(text: Option<string>)
    | ReasoningDelta(text: Option<string>)
    | ToolCallDelta(argumentsDelta: Option<string>, name: Option<string>)
    | OtherChunk

  datatype InnerBlock = TextBlock(text: string) | OtherInner

  datatype ContentBlock = ToolResultBlock(content: seq<InnerBlock>) | OtherBlock

  /** `message.source.callId` and `message.content`, when they are there. */
  datatype Message = Message(callId: Option<string>, content: Option<seq<ContentBlock>>)

  /** `data.arguments`: absent, a string that may or may not be JSON, or already a value. */
  datatype Arguments = NoArguments | RawArguments(raw: string) | ParsedArguments(value: Value)

  datatype ErrorInfo = ErrorInfo(name: string, code: string)

  type TurnNumber = Option<int>

  datatype Body =
    | StepStart(turn: TurnNumber, step: TurnNumber)
    | AssistantChunk(turn: TurnNumber, step: TurnNumber, chunk: Chunk)
    | AssistantMessage(turn: TurnNumber, step: TurnNumber, outputTokens: Option<int>)
    | ToolCall(callId: Option<string>, name: Option<string>, arguments: Arguments)
    | ToolResult(message: Option<Message>, error: Option<ErrorInfo>)
    | StepEnd(turn: TurnNumber)
    | TurnEnd
    | OtherEvent

  datatype Event = Event(time: int, body: Body)

  function Bodies(events: seq<Event>): (bodies: seq<Body>)
    ensures |bodies| == |events|
    ensures forall i | 0 <= i < |events| :: bodies[i] == events[i].body
  {
    seq(|events|, i requires 0 <= i < |events| => events[i].body)
  }

  predicate Chronological(events: seq<Event>) {
    forall i, j | 0 <= i < j < |events| :: events[i].time <= events[j].time
  }

  function AtLeastZero(n: int): nat {
    if n < 0 then 0 else n
  }

  /** The time from one instant to a later one; none when the clock went back. */
  function Elapsed(start: int, end: int): nat {
    if start <= end then end - start else 0
  }

  /** The id a result answers to. */
  function ResultId(b: Body): Option<string> {
    if b.ToolResult? && b.message.Some? then b.message.value.callId else None
  }

  /**
   * The two readers of the log pair results with calls by different rules. The fold forgets every
   * pending call at `turn/end`, and files a call that carries no id under the property name its
   * missing id turns into; the bridge never forgets, and ignores a call without an id.
   */
  datatype Reader = Fold | Bridge {
    function CallKey(callId: Option<string>): Option<string> {
      if callId.None? && Fold? then Some("undefined") else callId
    }

    predicate Forgets(b: Body) {
      Fold? && b.TurnEnd?
    }
  }

  /**
   * The index of the call that a result carrying `id` at position `j` would be paired with:
   * the latest call with that id that no later result has used up and no later event has dropped.
   */
  function CallBefore(bodies: seq<Body>, j: nat, id: string, reader: Reader): (call: Option<nat>)
    requires j <= |bodies|
    ensures call.Some? ==> call.value < j && bodies[call.value].ToolCall?
  {
    if j == 0 then None else
    var b := bodies[j - 1];
    if b.ToolCall? && reader.CallKey(b.callId) == Some(id) then Some(j - 1)
    else if ResultId(b) == Some(id) || reader.Forgets(b) then None
    else CallBefore(bodies, j - 1, id, reader)
  }

  /** The call that the event at `j` completes, if that event is a result that completes one. */
  function PairedCall(bodies: seq<Body>, j: nat, reader: Reader): (call: Option<nat>)
    requires j < |bodies|
    ensures call.Some? ==> call.value < j && bodies[call.value].ToolCall?
  {
    match ResultId(bodies[j])
    case None => None
    case Some(id) => CallBefore(bodies, j, id, reader)
  }

  /** The time from call to result of the pair that `j` completes; 0 when it completes none. */
  function PairMs(events: seq<Event>, j: nat, reader: Reader): nat
    requires j < |events|
  {
    match PairedCall(Bodies(events), j, reader)
    case None => 0
    case Some(i) => Elapsed(events[i].time, events[j].time)
  }

  /** The total over the pairs completed by the first `n` events. */
  function PairedMs(events: seq<Event>, n: nat, reader: Reader): nat
    requires n <= |events|
  {
    if n == 0 then 0 else PairedMs(events, n - 1, reader) + PairMs(events, n - 1, reader)
  }

  /** `CallBefore` is the latest use of the id: a call, with nothing in between that ends it. */
  lemma {:induction false} CallBeforeMeaning(bodies: seq<Body>, j: nat, id: string, reader: Reader, i: nat)
    requires j <= |bodies|
    ensures CallBefore(bodies, j, id, reader) == Some(i) <==>
            && i < j && bodies[i].ToolCall? && reader.CallKey(bodies[i].callId) == Some(id)
            && forall k | i < k < j :: !reader.Forgets(bodies[k]) && ResultId(bodies[k]) != Some(id)
                                    && !(bodies[k].ToolCall? && reader.CallKey(bodies[k].callId) == Some(id))
  {
    if j > 0 {
      CallBeforeMeaning(bodies, j - 1, id, reader, i);
    }
  }

  // ----- Which call a result completes, by the log's own fields -----

  predicate CarriesId(b: Body, id: string) {
    b.ToolCall? && b.callId == Some(id)
  }

  predicate AnswersTo(b: Body, id: string) {
    b.ToolResult? && b.message.Some? && b.message.value.callId == Some(id)
  }

  /** A call as the fold files it: a missing id becomes the property name "undefined". */
  predicate IsFiledUnder(b: Body, id: string) {
    CarriesId(b, id) || (b.ToolCall? && b.callId == None && id == "undefined")
  }

  /** For the bridge: a call and a result with one id, and neither with that id in between. */
  ghost predicate BridgePairs(bodies: seq<Body>, i: nat, j: nat, id: string) {
    && i < j < |bodies| && CarriesId(bodies[i], id) && AnswersTo(bodies[j], id)
    && forall k | i < k < j :: !CarriesId(bodies[k], id) && !AnswersTo(bodies[k], id)
  }

  /** For the fold: the same for ids as it files them, and no end of a turn in between. */
  ghost predicate FoldPairs(bodies: seq<Body>, i: nat, j: nat, id: string) {
    && i < j < |bodies| && IsFiledUnder(bodies[i], id) && AnswersTo(bodies[j], id)
    && forall k | i < k < j :: !IsFiledUnder(bodies[k], id) && !AnswersTo(bodies[k], id) && !bodies[k].TurnEnd?
  }

  /** The lookups pair exactly what the log's own fields pair. */
  lemma PairedCallExactly(bodies: seq<Body>, i: nat, j: nat)
    requires j < |bodies|
    ensures PairedCall(bodies, j, Bridge) == Some(i) <==> exists id :: BridgePairs(bodies, i, j, id)
    ensures PairedCall(bodies, j, Fold) == Some(i) <==> exists id :: FoldPairs(bodies, i, j, id)
  {
    forall id | AnswersTo(bodies[j], id)
      ensures BridgePairs(bodies, i, j, id) <==> CallBefore(bodies, j, id, Bridge) == Some(i)
      ensures FoldPairs(bodies, i, j, id) <==> CallBefore(bodies, j, id, Fold) == Some(i)
    {
      CallBeforeMeaning(bodies, j, id, Bridge, i);
      CallBeforeMeaning(bodies, j, id, Fold, i);
    }
    if PairedCall(bodies, j, Bridge) == Some(i) {
      assert BridgePairs(bodies, i, j, ResultId(bodies[j]).value);
    }
    if PairedCall(bodies, j, Fold) == Some(i) {
      assert FoldPairs(bodies, i, j, ResultId(bodies[j]).value);
    }
  }
}
