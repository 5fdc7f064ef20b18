/**
 * What the figures mean, read off a whole log at once: which step a message answers, when that
 * step's first token came, which call a result completes, which turn the step before belonged to. The
 * fold keeps none of this; it is the reference the fold is compared with.
 */
module StatsMeaning {
  import opened Common
  import opened SessionEvents
  import opened SessionStats

  predicate SameStep(start: Body, b: Body) {
    && start.StepStart?
    && (b.AssistantChunk? || b.AssistantMessage?)
    && b.turn == start.turn && b.step == start.step
  }

  /** The step started at `i` is still the open one just before `j`. */
  ghost predicate OpenAt(bodies: seq<Body>, i: nat, j: nat)
    requires j <= |bodies|
  {
    && i < j && bodies[i].StepStart?
    && forall k | i < k < j :: !bodies[k].StepStart? && !bodies[k].StepEnd?
                            && !(bodies[k].AssistantMessage? && SameStep(bodies[i], bodies[k]))
  }

  /** Some output: text or reasoning that is not empty, arguments of a call that are not empty, or the name of one. */
  predicate HasOutput(chunk: Chunk) {
    || (chunk.TextDelta? && chunk.text != Some(""))
    || (chunk.ReasoningDelta? && chunk.text != Some(""))
    || (chunk.ToolCallDelta? && (chunk.argumentsDelta != Some("") || chunk.name != None))
  }

  predicate IsTokenOf(start: Body, b: Body) {
    b.AssistantChunk? && SameStep(start, b) && HasOutput(b.chunk)
  }

  /** The first non-empty delta of the step started at `i`, before `j`. */
  function FirstToken(bodies: seq<Body>, i: nat, j: nat): (k: Option<nat>)
    requires i < j <= |bodies|
    ensures k.Some? ==> i < k.value < j && IsTokenOf(bodies[i], bodies[k.value])
    ensures k.Some? ==> forall m | i < m < k.value :: !IsTokenOf(bodies[i], bodies[m])
    ensures k.None? ==> forall m | i < m < j :: !IsTokenOf(bodies[i], bodies[m])
  {
    if j == i + 1 then None
    else
      var before := FirstToken(bodies, i, j - 1);
      if before.None? && IsTokenOf(bodies[i], bodies[j - 1]) then Some(j - 1) else before
  }

  /** The open step that the message at `j` completes. */
  ghost function AnsweredStep(bodies: seq<Body>, j: nat): (i: Option<nat>)
    requires j < |bodies|
    ensures i.Some? ==> i.value < j
  {
    if bodies[j].AssistantMessage? && exists i: nat :: OpenAt(bodies, i, j) && SameStep(bodies[i], bodies[j])
    then
      var i: nat :| OpenAt(bodies, i, j) && SameStep(bodies[i], bodies[j]);
      Some(i)
    else None
  }

  lemma OpenStepIsUnique(bodies: seq<Body>, i: nat, i': nat, j: nat)
    requires j <= |bodies| && OpenAt(bodies, i, j) && OpenAt(bodies, i', j)
    ensures i == i'
  {
  }

  /** The turn of the latest step closed before `j`. */
  function LastClosedTurn(bodies: seq<Body>, j: nat): (turn: Option<TurnNumber>)
    requires j <= |bodies|
    ensures turn.None? ==> forall k | 0 <= k < j :: !bodies[k].StepEnd?
    ensures turn.Some? ==> exists k | 0 <= k < j ::
              bodies[k] == StepEnd(turn.value) && forall m | k < m < j :: !bodies[m].StepEnd?
  {
    if j == 0 then None
    else
      match bodies[j - 1]
      case StepEnd(turn) => Some(turn)
      case _ => LastClosedTurn(bodies, j - 1)
  }

  /** A closed step counts a turn when the closed step before it belonged to another one, or there was none. */
  function StepEndFigures(bodies: seq<Body>, j: nat): Stats
    requires j < |bodies| && bodies[j].StepEnd?
  {
    ZERO.(steps := 1, turns := if LastClosedTurn(bodies, j) == Some(bodies[j].turn) then 0 else 1)
  }

  /** What the event at `j` adds: the intervals that it, and only it, closes, or the step. */
  ghost function Contribution(events: seq<Event>, j: nat): Stats
    requires j < |events|
  {
    var bodies := Bodies(events);
    var tool := ZERO.(toolMs := CompletedMs(events, j));
    match AnsweredStep(bodies, j)
    case Some(i) => StepFigures(events, i, j)
    case None => if bodies[j].StepEnd? then StepEndFigures(bodies, j) else tool
  }

  /** The time of the call that the result at `j` completes. */
  ghost function CompletedMs(events: seq<Event>, j: nat): nat
    requires j < |events|
  {
    if exists i: nat, id :: FoldPairs(Bodies(events), i, j, id) then
      var i: nat, id :| FoldPairs(Bodies(events), i, j, id);
      Elapsed(events[i].time, events[j].time)
    else 0
  }

  lemma CompletedMsIsPairMs(events: seq<Event>, j: nat)
    requires j < |events|
    ensures CompletedMs(events, j) == PairMs(events, j, Fold)
  {
    var bodies := Bodies(events);
    var call := PairedCall(bodies, j, Fold);
    if call.Some? {
      PairedCallExactly(bodies, call.value, j);
    }
    if exists i: nat, id :: FoldPairs(bodies, i, j, id) {
      var i: nat, id :| FoldPairs(bodies, i, j, id) && CompletedMs(events, j) == Elapsed(events[i].time, events[j].time);
      PairedCallExactly(bodies, i, j);
    }
  }

  ghost function StepFigures(events: seq<Event>, i: nat, j: nat): Stats
    requires i < j < |events| && events[j].body.AssistantMessage?
  {
    var llm := ZERO.(llmMs := Elapsed(events[i].time, events[j].time));
    match FirstToken(Bodies(events), i, j)
    case None => llm
    case Some(k) =>
      var first := llm.(ttftMs := Elapsed(events[i].time, events[k].time), ttftSteps := 1);
      var tokens := events[j].body.outputTokens;
      if tokens.Some? && tokens.value >= 0
      then first.(decodeMs := Elapsed(events[k].time, events[j].time), decodeTokens := tokens.value)
      else first
  }

  ghost function Contributions(events: seq<Event>, n: nat): Stats
    requires n <= |events|
  {
    if n == 0 then ZERO else Contributions(events, n - 1).Plus(Contribution(events, n - 1))
  }

  /** The fold's open step is the log's open step, with its first token. */
  ghost predicate OpenStepMatches(events: seq<Event>, n: nat, open: Option<OpenStep>)
    requires n <= |events|
  {
    var bodies := Bodies(events);
    match open
    case None => forall i: nat :: !OpenAt(bodies, i, n)
    case Some(o) =>
      exists i: nat :: OpenAt(bodies, i, n) && MatchesStart(events, i, n, o)
  }

  ghost predicate MatchesStart(events: seq<Event>, i: nat, n: nat, o: OpenStep)
    requires i < n <= |events| && events[i].body.StepStart?
  {
    && o.turn == events[i].body.turn && o.step == events[i].body.step && o.startTime == events[i].time
    && match FirstToken(Bodies(events), i, n)
       case None => o.firstTokenTime == None
       case Some(k) => o.firstTokenTime == Some(events[k].time)
  }

  lemma NothingOpenAtStart(events: seq<Event>)
    ensures OpenStepMatches(events, 0, None)
  {
  }

  lemma NoOtherStepOpens(bodies: seq<Body>, i: nat, n: nat)
    requires n < |bodies| && OpenAt(bodies, i, n) && !OpenAt(bodies, i, n + 1) && !bodies[n].StepStart?
    ensures var next := n + 1; forall i': nat :: !OpenAt(bodies, i', next)
  {
  }

  lemma StillNothingOpens(bodies: seq<Body>, n: nat, next: nat)
    requires n < |bodies| && next == n + 1 && !bodies[n].StepStart?
    requires forall i: nat :: !OpenAt(bodies, i, n)
    ensures forall i: nat :: !OpenAt(bodies, i, next)
  {
    forall i: nat
      ensures !OpenAt(bodies, i, next)
    {
      assert !OpenAt(bodies, i, n);
    }
  }

  lemma OpenStepStep(events: seq<Event>, n: nat, state: FoldState)
    requires n < |events| && OpenStepMatches(events, n, state.openStep)
    ensures OpenStepMatches(events, n + 1, ApplyEvent(state, events[n]).openStep)
  {
    hide MessageStats;
    var bodies := Bodies(events);
    var next := ApplyEvent(state, events[n]).openStep;
    if events[n].body.StepStart? {
      assert OpenAt(bodies, n, n + 1) && MatchesStart(events, n, n + 1, next.value);
    } else if state.openStep.Some? {
      var i: nat :| OpenAt(bodies, i, n) && MatchesStart(events, i, n, state.openStep.value);
      if next.Some? {
        assert OpenAt(bodies, i, n + 1);
        assert FirstToken(bodies, i, n + 1)
            == if FirstToken(bodies, i, n).None? && IsTokenOf(bodies[i], bodies[n]) then Some(n)
               else FirstToken(bodies, i, n);
        assert MatchesStart(events, i, n + 1, next.value);
      } else {
        NoOtherStepOpens(bodies, i, n);
      }
    } else {
      StillNothingOpens(bodies, n, n + 1);
    }
  }

  lemma OpenStepIs(events: seq<Event>, n: nat, state: FoldState, i: nat)
    requires n <= |events| && OpenStepMatches(events, n, state.openStep) && OpenAt(Bodies(events), i, n)
    ensures state.openStep.Some? && MatchesStart(events, i, n, state.openStep.value)
  {
    if state.openStep.Some? {
      var i': nat :| OpenAt(Bodies(events), i', n) && MatchesStart(events, i', n, state.openStep.value);
      OpenStepIsUnique(Bodies(events), i, i', n);
    }
  }

  lemma MessageContribution(events: seq<Event>, n: nat, state: FoldState)
    requires n < |events| && OpenStepMatches(events, n, state.openStep) && events[n].body.AssistantMessage?
    ensures ApplyEvent(state, events[n]).stats == state.stats.Plus(Contribution(events, n))
  {
    CompletedMsIsPairMs(events, n);
    assert PairMs(events, n, Fold) == 0;
    hide PairMs, CompletedMs, StepEndFigures, FirstToken, LastClosedTurn;
    var bodies := Bodies(events);
    var b := events[n].body;
    if IsOpen(state, b.turn, b.step) {
      var i: nat :| OpenAt(bodies, i, n) && MatchesStart(events, i, n, state.openStep.value);
      assert SameStep(bodies[i], bodies[n]);
    }
    if AnsweredStep(bodies, n).Some? {
      OpenStepIs(events, n, state, AnsweredStep(bodies, n).value);
    }
  }

  lemma ToolOnly(events: seq<Event>, n: nat)
    requires n < |events| && events[n].body.ToolResult?
    ensures Contribution(events, n) == ZERO.(toolMs := PairMs(events, n, Fold))
  {
    hide PairMs, CompletedMs;
    CompletedMsIsPairMs(events, n);
    assert AnsweredStep(Bodies(events), n) == None;
  }

  lemma ResultContribution(events: seq<Event>, n: nat)
    requires n < |events| && events[n].body.ToolResult?
    ensures var state := FoldEvents(INITIAL, events[..n]);
            ApplyEvent(state, events[n]).stats == state.stats.Plus(Contribution(events, n))
  {
    hide MessageStats, CallBefore, Contribution, FoldEvents;
    var id := ResultId(events[n].body);
    ToolOnly(events, n);
    if id.Some? {
      PendingIsCallBefore(events, n, id.value);
    }
  }

  lemma StepEndContribution(events: seq<Event>, n: nat, state: FoldState)
    requires n < |events| && events[n].body.StepEnd?
    requires state.lastTurn == LastClosedTurn(Bodies(events), n)
    ensures ApplyEvent(state, events[n]).stats == state.stats.Plus(Contribution(events, n))
  {
    assert AnsweredStep(Bodies(events), n) == None;
  }

  lemma OtherContribution(events: seq<Event>, n: nat, state: FoldState)
    requires n < |events|
    requires !events[n].body.AssistantMessage? && !events[n].body.ToolResult? && !events[n].body.StepEnd?
    ensures ApplyEvent(state, events[n]).stats == state.stats.Plus(Contribution(events, n))
  {
    CompletedMsIsPairMs(events, n);
    assert PairMs(events, n, Fold) == 0;
    hide CompletedMs;
    assert AnsweredStep(Bodies(events), n) == None;
  }

  lemma LastTurnStep(events: seq<Event>, n: nat, state: FoldState)
    requires n < |events| && state.lastTurn == LastClosedTurn(Bodies(events), n)
    ensures ApplyEvent(state, events[n]).lastTurn == LastClosedTurn(Bodies(events), n + 1)
  {
    hide MessageStats;
  }

  /**
   * Every figure is a sum over the events of the log: of the intervals each one closes - start to message,
   * start to first token, first token to message, call to result - and of the closed steps, each with a
   * turn when it changes the turn.
   */
  lemma {:induction false} FoldIsSumOfContributions(events: seq<Event>, n: nat)
    requires n <= |events|
    ensures OpenStepMatches(events, n, FoldEvents(INITIAL, events[..n]).openStep)
    ensures FoldEvents(INITIAL, events[..n]).lastTurn == LastClosedTurn(Bodies(events), n)
    ensures FoldEvents(INITIAL, events[..n]).stats == Contributions(events, n)
  {
    hide ApplyEvent, Contribution, OpenStepMatches, LastClosedTurn;
    if n == 0 {
      NothingOpenAtStart(events);
      NothingClosedAtStart(events);
    } else {
      FoldIsSumOfContributions(events, n - 1);
      assert events[..n][..n - 1] == events[..n - 1];
      var state := FoldEvents(INITIAL, events[..n - 1]);
      OpenStepStep(events, n - 1, state);
      LastTurnStep(events, n - 1, state);
      match events[n - 1].body {
        case AssistantMessage(_, _, _) => MessageContribution(events, n - 1, state);
        case ToolResult(_, _) => ResultContribution(events, n - 1);
        case StepEnd(_) => StepEndContribution(events, n - 1, state);
        case _ => OtherContribution(events, n - 1, state);
      }
    }
  }

  lemma NothingClosedAtStart(events: seq<Event>)
    ensures LastClosedTurn(Bodies(events), 0) == None
  {
  }
}
