/** `foldSessionStats`: turn and step counts and wall times from one session's event log. */
module SessionStats {
  import opened Common
  import opened SessionEvents

  datatype Stats = Stats(
    turns: int, steps: int, llmMs: int, toolMs: int, ttftMs: int, ttftSteps: int, decodeMs: int, decodeTokens: int)
  {
    function Plus(o: Stats): Stats {
      Stats(turns + o.turns, steps + o.steps, llmMs + o.llmMs, toolMs + o.toolMs,
            ttftMs + o.ttftMs, ttftSteps + o.ttftSteps, decodeMs + o.decodeMs, decodeTokens + o.decodeTokens)
    }
  }

  const ZERO := Stats(0, 0, 0, 0, 0, 0, 0, 0)

  datatype OpenStep = OpenStep(turn: TurnNumber, step: TurnNumber, startTime: int, firstTokenTime: Option<int>)

  datatype FoldState = FoldState(
    stats: Stats, lastTurn: Option<TurnNumber>, openStep: Option<OpenStep>, pendingCalls: map<string, int>)

  const INITIAL := FoldState(ZERO, None, None, map[])

  predicate IsTokenDelta(chunk: Chunk) {
    match chunk
    case TextDelta(text) => text != Some("")
    case ReasoningDelta(text) => text != Some("")
    case ToolCallDelta(argumentsDelta, name) => argumentsDelta != Some("") || name.Some?
    case _ => false
  }

  /** A negative count is not a usable one. */
  function UsageOutputTokens(outputTokens: Option<int>): Option<int> {
    if outputTokens.Some? && outputTokens.value >= 0 then outputTokens else None
  }

  predicate IsOpen(state: FoldState, turn: TurnNumber, step: TurnNumber) {
    state.openStep.Some? && state.openStep.value.turn == turn && state.openStep.value.step == step
  }

  function ApplyEvent(state: FoldState, event: Event): FoldState {
    var s := state.stats;
    match event.body
    case StepStart(turn, step) => state.(openStep := Some(OpenStep(turn, step, event.time, None)))
    case AssistantChunk(turn, step, chunk) =>
      if !IsOpen(state, turn, step) then state
      else if state.openStep.value.firstTokenTime.Some? || !IsTokenDelta(chunk) then state
      else state.(openStep := Some(state.openStep.value.(firstTokenTime := Some(event.time))))
    case AssistantMessage(turn, step, outputTokens) =>
      if !IsOpen(state, turn, step) then state else
      var open := state.openStep.value;
      var timed := s.(llmMs := s.llmMs + AtLeastZero(event.time - open.startTime));
      state.(stats := MessageStats(timed, open, event.time, UsageOutputTokens(outputTokens)), openStep := None)
    case ToolCall(callId, _, _) =>
      state.(pendingCalls := state.pendingCalls[Reader.Fold.CallKey(callId).value := event.time])
    case ToolResult(_, _) =>
      var id := ResultId(event.body);
      if id.None? || id.value !in state.pendingCalls then state
      else state.(stats := s.(toolMs := s.toolMs + AtLeastZero(event.time - state.pendingCalls[id.value])),
                  pendingCalls := state.pendingCalls - {id.value})
    case StepEnd(turn) =>
      state.(stats := s.(turns := if state.lastTurn == Some(turn) then s.turns else s.turns + 1, steps := s.steps + 1),
             lastTurn := Some(turn), openStep := None)
    case TurnEnd => state.(pendingCalls := map[])
    case OtherEvent => state
  }

  /** First-token and decode figures, only for a step whose first token was seen. */
  function MessageStats(s: Stats, open: OpenStep, time: int, outputTokens: Option<int>): Stats {
    match open.firstTokenTime
    case None => s
    case Some(first) =>
      var t := s.(ttftMs := s.ttftMs + AtLeastZero(first - open.startTime), ttftSteps := s.ttftSteps + 1);
      if outputTokens.None? then t
      else t.(decodeMs := t.decodeMs + AtLeastZero(time - first), decodeTokens := t.decodeTokens + outputTokens.value)
  }

  /** `events.reduce(applyEvent, state)`. */
  function FoldEvents(state: FoldState, events: seq<Event>): FoldState {
    if events == [] then state
    else ApplyEvent(FoldEvents(state, events[..|events| - 1]), events[|events| - 1])
  }

  function FoldSessionStats(events: seq<Event>): Stats {
    FoldEvents(INITIAL, events).stats
  }

  function SumStats(stats: seq<Stats>): Stats {
    if stats == [] then ZERO else SumStats(stats[..|stats| - 1]).Plus(stats[|stats| - 1])
  }

  datatype Inconsistency = LlmExceedsWall | ToolExceedsWall

  /** Either time alone exceeds the wall time; model time is named first. */
  function FindTimingInconsistency(stats: Stats, wallTimeMs: int): (r: Option<Inconsistency>)
    ensures r == None <==> stats.llmMs <= wallTimeMs && stats.toolMs <= wallTimeMs
    ensures r == Some(LlmExceedsWall) <==> stats.llmMs > wallTimeMs
  {
    if stats.llmMs > wallTimeMs then Some(LlmExceedsWall)
    else if stats.toolMs > wallTimeMs then Some(ToolExceedsWall)
    else None
  }

  // ----- The state after any log, read off the log itself -----

  /** What is pending after the first `n` events is exactly what looking back from there finds. */
  lemma {:induction false} PendingIsCallBefore(events: seq<Event>, n: nat, id: string)
    requires n <= |events|
    ensures var pending := FoldEvents(INITIAL, events[..n]).pendingCalls;
            var call := CallBefore(Bodies(events), n, id, Fold);
            && (id in pending <==> call.Some?)
            && (call.Some? ==> pending[id] == events[call.value].time)
  {
    if n > 0 {
      PendingIsCallBefore(events, n - 1, id);
      assert events[..n][..n - 1] == events[..n - 1];
    }
  }

  /** `toolMs` is the total time of the pairs the log contains. */
  lemma {:induction false} ToolMsIsPairedMs(events: seq<Event>, n: nat)
    requires n <= |events|
    ensures FoldEvents(INITIAL, events[..n]).stats.toolMs == PairedMs(events, n, Fold)
  {
    if n > 0 {
      ToolMsIsPairedMs(events, n - 1);
      assert events[..n][..n - 1] == events[..n - 1];
      if ResultId(events[n - 1].body).Some? {
        PendingIsCallBefore(events, n - 1, ResultId(events[n - 1].body).value);
      }
    }
  }

  // ----- Model time -----

  /** Holds after any prefix of a chronological log that began at `first` and has reached `now`. */
  predicate ModelTimeInvariant(state: FoldState, first: int, now: int) {
    var s := state.stats;
    && first <= now
    && 0 <= s.ttftMs && 0 <= s.decodeMs && s.ttftMs + s.decodeMs <= s.llmMs
    && match state.openStep
       case None => s.llmMs <= now - first
       case Some(open) =>
         && first <= open.startTime <= now
         && s.llmMs <= open.startTime - first
         && (open.firstTokenTime.Some? ==> open.startTime <= open.firstTokenTime.value <= now)
  }

  lemma {:induction false} ModelTimeInvariantHolds(events: seq<Event>)
    requires events != [] && Chronological(events)
    ensures ModelTimeInvariant(FoldEvents(INITIAL, events), events[0].time, events[|events| - 1].time)
  {
    var before := events[..|events| - 1];
    if before == [] {
      assert FoldEvents(INITIAL, before) == INITIAL;
    } else {
      ModelTimeInvariantHolds(before);
    }
  }

  /** However malformed the steps of a log, the model time it yields fits in the log's own span. */
  lemma ModelTimeFitsInSpan(events: seq<Event>)
    requires events != [] && Chronological(events)
    ensures var s := FoldSessionStats(events);
            && 0 <= s.ttftMs && 0 <= s.decodeMs
            && s.ttftMs + s.decodeMs <= s.llmMs <= events[|events| - 1].time - events[0].time
  {
    ModelTimeInvariantHolds(events);
  }

  // ----- Folding a log in parts -----

  function FirstStepEnd(events: seq<Event>): Option<TurnNumber> {
    if events == [] then None
    else
      var before := FirstStepEnd(events[..|events| - 1]);
      var b := events[|events| - 1].body;
      if before.None? && b.StepEnd? then Some(b.turn) else before
  }

  /** How a fold that starts at `from` relates to the same events folded from scratch. */
  predicate ContinuesFrom(from: FoldState, state: FoldState, anew: FoldState, firstTurn: Option<TurnNumber>) {
    var shared := if firstTurn.Some? && from.lastTurn == firstTurn then 1 else 0;
    && state.openStep == anew.openStep
    && state.pendingCalls == anew.pendingCalls
    && state.stats == from.stats.Plus(anew.stats.(turns := anew.stats.turns - shared))
    && (if firstTurn.None? then state.lastTurn == from.lastTurn && anew.lastTurn == None
        else state.lastTurn == anew.lastTurn && anew.lastTurn.Some?)
  }

  lemma {:induction false} FoldContinues(from: FoldState, events: seq<Event>)
    requires from.openStep == None && from.pendingCalls == map[]
    ensures ContinuesFrom(from, FoldEvents(from, events), FoldEvents(INITIAL, events), FirstStepEnd(events))
  {
    hide ApplyEvent, ContinuesFrom;
    if events == [] {
      ContinuesAtOnce(from);
    } else {
      var before, e := events[..|events| - 1], events[|events| - 1];
      FoldContinues(from, before);
      ContinuesOneMore(from, FoldEvents(from, before), FoldEvents(INITIAL, before), FirstStepEnd(before), e);
    }
  }

  lemma ContinuesAtOnce(from: FoldState)
    requires from.openStep == None && from.pendingCalls == map[]
    ensures ContinuesFrom(from, from, INITIAL, None)
  {
  }

  lemma ContinuesOneMore(from: FoldState, state: FoldState, anew: FoldState, firstTurn: Option<TurnNumber>, e: Event)
    requires ContinuesFrom(from, state, anew, firstTurn)
    ensures ContinuesFrom(from, ApplyEvent(state, e), ApplyEvent(anew, e),
                          if firstTurn.None? && e.body.StepEnd? then Some(e.body.turn) else firstTurn)
  {
    if e.body.StepEnd? {
      hide MessageStats;
    } else {
      var shared := if firstTurn.Some? && from.lastTurn == firstTurn then 1 else 0;
      var base := from.stats.(turns := from.stats.turns - shared);
      StatsAddUp(base, anew.(lastTurn := state.lastTurn), e);
      LastTurnIsOnlyForStepEnd(anew, state.lastTurn, e);
      hide ApplyEvent;
      assert state == anew.(lastTurn := state.lastTurn, stats := base.Plus(anew.stats));
    }
  }

  /** What an event adds to the figures does not depend on the figures. */
  lemma StatsAddUp(base: Stats, state: FoldState, e: Event)
    ensures var r := ApplyEvent(state, e);
            ApplyEvent(state.(stats := base.Plus(state.stats)), e) == r.(stats := base.Plus(r.stats))
  {
  }

  lemma LastTurnIsOnlyForStepEnd(state: FoldState, lastTurn: Option<TurnNumber>, e: Event)
    requires !e.body.StepEnd?
    ensures ApplyEvent(state.(lastTurn := lastTurn), e) == ApplyEvent(state, e).(lastTurn := lastTurn)
  {
  }

  lemma {:induction false} FoldOfConcatenation(state: FoldState, a: seq<Event>, b: seq<Event>)
    ensures FoldEvents(state, a + b) == FoldEvents(FoldEvents(state, a), b)
  {
    if b == [] {
      assert a + b == a;
    } else {
      FoldOfConcatenation(state, a, b[..|b| - 1]);
      assert (a + b)[..|a + b| - 1] == a + b[..|b| - 1];
    }
  }

  /**
   * Concatenating two logs, the first of which ends with nothing open, folds to the sum of the two
   * folds, field by field - except that a turn both logs claim (the last one of `a`, the first of `b`)
   * is counted once instead of twice. This is why sessions are folded apart and then summed.
   */
  lemma ConcatenationIsSum(a: seq<Event>, b: seq<Event>)
    requires FoldEvents(INITIAL, a).openStep == None && FoldEvents(INITIAL, a).pendingCalls == map[]
    ensures var sum := SumStats([FoldSessionStats(a), FoldSessionStats(b)]);
            var sharesTurn := FirstStepEnd(b).Some? && FoldEvents(INITIAL, a).lastTurn == FirstStepEnd(b);
            FoldSessionStats(a + b) == (if sharesTurn then sum.(turns := sum.turns - 1) else sum)
  {
    hide FoldEvents, SumStats, FirstStepEnd;
    FoldOfConcatenation(INITIAL, a, b);
    FoldContinues(FoldEvents(INITIAL, a), b);
    SumOfTwo(FoldSessionStats(a), FoldSessionStats(b));
  }

  lemma SumOfTwo(x: Stats, y: Stats)
    ensures SumStats([x, y]) == x.Plus(y)
  {
    assert [x, y][..1] == [x] && [x][..0] == [];
    assert SumStats([x]) == x;
  }

  // ----- Turns -----

  /** The turn numbers of the closed steps, in log order. */
  function ClosedTurns(events: seq<Event>): seq<TurnNumber> {
    if events == [] then []
    else
      var b := events[|events| - 1].body;
      ClosedTurns(events[..|events| - 1]) + (if b.StepEnd? then [b.turn] else [])
  }

  predicate NonDecreasing(turns: seq<TurnNumber>) {
    && (forall t <- turns :: t.Some?)
    && forall i, j | 0 <= i < j < |turns| :: turns[i].value <= turns[j].value
  }

  lemma OnlyStepEndCounts(state: FoldState, event: Event)
    ensures var next := ApplyEvent(state, event);
            if event.body.StepEnd? then
              && next.stats.turns == state.stats.turns + (if state.lastTurn == Some(event.body.turn) then 0 else 1)
              && next.stats.steps == state.stats.steps + 1 && next.lastTurn == Some(event.body.turn)
            else
              next.stats.turns == state.stats.turns && next.stats.steps == state.stats.steps
              && next.lastTurn == state.lastTurn
  {
  }

  /** With host-assigned turn numbers that never go back, `turns` counts the distinct ones. */
  lemma {:induction false} TurnsAreDistinctTurns(events: seq<Event>)
    requires NonDecreasing(ClosedTurns(events))
    ensures var state := FoldEvents(INITIAL, events);
            var turns := ClosedTurns(events);
            && state.stats.turns == |set t | t in turns|
            && state.stats.steps == |turns|
            && state.lastTurn == (if turns == [] then None else Some(turns[|turns| - 1]))
  {
    if events != [] {
      var before := ClosedTurns(events[..|events| - 1]);
      var turns := ClosedTurns(events);
      assert before == turns[..|before|];
      assert NonDecreasing(before);
      TurnsAreDistinctTurns(events[..|events| - 1]);
      OnlyStepEndCounts(FoldEvents(INITIAL, events[..|events| - 1]), events[|events| - 1]);
      hide ApplyEvent, NonDecreasing;
      if events[|events| - 1].body.StepEnd? {
        AppendedTurn(before, events[|events| - 1].body.turn);
      } else {
        assert turns == before;
      }
    }
  }

  lemma AppendedTurn(before: seq<TurnNumber>, t: TurnNumber)
    requires NonDecreasing(before + [t])
    ensures var isNew := before == [] || before[|before| - 1] != t;
            |set u | u in before + [t]| == |set u | u in before| + (if isNew then 1 else 0)
  {
    var turns := before + [t];
    assert (set u | u in turns) == (set u | u in before) + {t};
    if t in before {
      var i :| 0 <= i < |before| && before[i] == t;
      assert turns[i] == t && turns[|before|] == t && turns[|before| - 1] == before[|before| - 1];
      assert turns[|before| - 1].Some?;
      assert i < |before| - 1 ==> turns[i].value <= turns[|before| - 1].value;
      assert turns[|before| - 1].value <= turns[|before|].value;
      assert (set u | u in before) + {t} == (set u | u in before);
    }
  }
}
