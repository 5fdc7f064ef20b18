/**
 * How large `toolMs` can get, and how it compares with what another reader of the same log adds up.
 * The comment above `findSessionStatsTimingInconsistency` calls the call-to-result intervals disjoint;
 * nothing in the fold makes them so, and the true bound is the greatest number of intervals that
 * overlap anywhere.
 */
module ToolTime {
  import opened Common
  import opened SessionEvents
  import opened SessionStats

  /** How many of the pairs a reader completes before `n` are running between events `g` and `g + 1`. */
  function Overlap(bodies: seq<Body>, n: nat, g: nat, reader: Reader): nat
    requires n <= |bodies|
  {
    if n == 0 then 0
    else Overlap(bodies, n - 1, g, reader) + (if Spans(bodies, n - 1, g, reader) then 1 else 0)
  }

  predicate Spans(bodies: seq<Body>, j: nat, g: nat, reader: Reader)
    requires j < |bodies|
  {
    match PairedCall(bodies, j, reader)
    case None => false
    case Some(i) => i <= g < j
  }

  /** The area under the overlap curve over the first `m` gaps: overlap times duration, gap by gap. */
  function Area(events: seq<Event>, n: nat, m: nat, reader: Reader): int
    requires n <= |events| && m < |events|
  {
    if m == 0 then 0
    else
      Area(events, n, m - 1, reader)
      + Overlap(Bodies(events), n, m - 1, reader) * (events[m].time - events[m - 1].time)
  }

  lemma {:induction false} AreaOfNothing(events: seq<Event>, m: nat, reader: Reader)
    requires m < |events|
    ensures Area(events, 0, m, reader) == 0
  {
    if m > 0 {
      AreaOfNothing(events, m - 1, reader);
    }
  }

  /** One more event adds, up to gap `m`, the part of its own interval that lies before `m`. */
  lemma {:induction false} AreaOfOneMore(events: seq<Event>, n: nat, m: nat, reader: Reader)
    requires n < |events| && m < |events|
    ensures var call := PairedCall(Bodies(events), n, reader);
            Area(events, n + 1, m, reader) == Area(events, n, m, reader)
              + (if call.None? || m <= call.value then 0
                 else events[if m < n then m else n].time - events[call.value].time)
  {
    hide PairedCall;
    if m > 0 {
      AreaOfOneMore(events, n, m - 1, reader);
      OneMoreGap(events, n, m, reader);
    }
  }

  lemma OneMoreGap(events: seq<Event>, n: nat, m: nat, reader: Reader)
    requires n < |events| && 0 < m < |events|
    ensures var d := events[m].time - events[m - 1].time;
            Overlap(Bodies(events), n + 1, m - 1, reader) * d
            == Overlap(Bodies(events), n, m - 1, reader) * d + (if Spans(Bodies(events), n, m - 1, reader) then d else 0)
  {
  }

  /** Conservation: in a chronological log, the time of a reader's pairs is exactly the area under its overlap curve. */
  lemma {:induction false} PairedMsIsArea(events: seq<Event>, n: nat, reader: Reader)
    requires n <= |events| && events != [] && Chronological(events)
    ensures PairedMs(events, n, reader) == Area(events, n, |events| - 1, reader)
  {
    hide Area, Overlap, CallBefore;
    if n == 0 {
      AreaOfNothing(events, |events| - 1, reader);
    } else {
      PairedMsIsArea(events, n - 1, reader);
      AreaOfOneMore(events, n - 1, |events| - 1, reader);
      var call := PairedCall(Bodies(events), n - 1, reader);
      if call.Some? {
        assert events[call.value].time <= events[n - 1].time;
      }
    }
  }

  lemma ToolMsIsArea(events: seq<Event>)
    requires events != [] && Chronological(events)
    ensures FoldSessionStats(events).toolMs == Area(events, |events|, |events| - 1, Fold)
  {
    assert events[..|events|] == events;
    ToolMsIsPairedMs(events, |events|);
    PairedMsIsArea(events, |events|, Fold);
  }

  ghost predicate OverlapAtMost(bodies: seq<Body>, k: nat) {
    forall g: nat :: Overlap(bodies, |bodies|, g, Fold) <= k
  }

  lemma {:induction false} AreaBound(events: seq<Event>, m: nat, k: nat)
    requires m < |events| && Chronological(events)
    requires OverlapAtMost(Bodies(events), k)
    ensures 0 <= Area(events, |events|, m, Fold) <= k * (events[m].time - events[0].time)
  {
    hide Overlap;
    if m > 0 {
      AreaBound(events, m - 1, k);
      assert events[m - 1].time <= events[m].time;
      var o, d := Overlap(Bodies(events), |events|, m - 1, Fold), events[m].time - events[m - 1].time;
      ProductMonotone(o, k, d);
      ProductOfSum(k, events[m - 1].time - events[0].time, d);
    }
  }

  lemma ProductOfSum(k: nat, a: int, b: int)
    ensures k * (a + b) == k * a + k * b
  {
  }

  lemma ProductMonotone(a: nat, b: nat, c: nat)
    requires a <= b
    ensures 0 <= a * c <= b * c
  {
    assert b * c == a * c + (b - a) * c;
  }

  /** Any timing of a fixed sequence of events. */
  function Timed(bodies: seq<Body>, times: seq<int>): (events: seq<Event>)
    requires |times| == |bodies|
    ensures |events| == |bodies|
    ensures Bodies(events) == bodies
    ensures forall i | 0 <= i < |times| :: events[i].time == times[i]
  {
    seq(|bodies|, i requires 0 <= i < |bodies| => Event(times[i], bodies[i]))
  }

  predicate Sorted(times: seq<int>) {
    forall i, j | 0 <= i < j < |times| :: times[i] <= times[j]
  }

  ghost predicate FitsTimes(bodies: seq<Body>, k: nat, times: seq<int>)
    requires bodies != []
  {
    |times| == |bodies| && Sorted(times) ==>
      FoldSessionStats(Timed(bodies, times)).toolMs <= k * (times[|times| - 1] - times[0])
  }

  /** All the time passes in gap `g`. */
  function JumpAt(n: nat, g: nat): (times: seq<int>)
    ensures |times| == n && Sorted(times)
  {
    seq(n, i => if i <= g then 0 else 1)
  }

  lemma {:induction false} AreaOfJump(bodies: seq<Body>, g: nat, m: nat, reader: Reader)
    requires m < |bodies|
    ensures Area(Timed(bodies, JumpAt(|bodies|, g)), |bodies|, m, reader)
         == if g < m then Overlap(bodies, |bodies|, g, reader) else 0
  {
    if m > 0 {
      AreaOfJump(bodies, g, m - 1, reader);
    }
  }

  lemma {:induction false} NothingSpansTheEnd(bodies: seq<Body>, n: nat, g: nat, reader: Reader)
    requires n <= |bodies| && n <= g + 1
    ensures Overlap(bodies, n, g, reader) == 0
  {
    if n > 0 {
      NothingSpansTheEnd(bodies, n - 1, g, reader);
    }
  }

  /** When all the time passes in one gap, the time of a reader's pairs is its overlap there. */
  lemma JumpMeasuresOverlap(bodies: seq<Body>, g: nat, reader: Reader)
    requires bodies != []
    ensures PairedMs(Timed(bodies, JumpAt(|bodies|, g)), |bodies|, reader) == Overlap(bodies, |bodies|, g, reader)
  {
    hide Overlap, Area, PairedMs;
    PairedMsIsArea(Timed(bodies, JumpAt(|bodies|, g)), |bodies|, reader);
    AreaOfJump(bodies, g, |bodies| - 1, reader);
    if g >= |bodies| - 1 {
      NothingSpansTheEnd(bodies, |bodies|, g, reader);
    }
  }

  /**
   * The exact bound. For a given sequence of events, `k` times the log's span bounds `toolMs` under
   * EVERY timing if and only if nowhere more than `k` completed calls run at once.
   */
  lemma ToolTimeBoundExactly(bodies: seq<Body>, k: nat)
    requires bodies != []
    ensures (forall times: seq<int> :: FitsTimes(bodies, k, times)) <==> OverlapAtMost(bodies, k)
  {
    hide Overlap, FoldSessionStats, Area;
    if OverlapAtMost(bodies, k) {
      forall times: seq<int>
        ensures FitsTimes(bodies, k, times)
      {
        if |times| == |bodies| && Sorted(times) {
          ToolMsIsArea(Timed(bodies, times));
          AreaBound(Timed(bodies, times), |bodies| - 1, k);
        }
      }
    } else {
      var g: nat :| Overlap(bodies, |bodies|, g, Fold) > k;
      var times := JumpAt(|bodies|, g);
      JumpMeasuresOverlap(bodies, g, Fold);
      ToolMsIsArea(Timed(bodies, times));
      PairedMsIsArea(Timed(bodies, times), |bodies|, Fold);
      assert !FitsTimes(bodies, k, times);
    }
  }

  // ----- Two readers of one log -----

  /** Under this timing, the pairs of `less` take no more time than those of `more`. */
  ghost predicate TakesNoMore(bodies: seq<Body>, less: Reader, more: Reader, times: seq<int>) {
    |times| == |bodies| && Sorted(times) ==>
      PairedMs(Timed(bodies, times), |bodies|, less) <= PairedMs(Timed(bodies, times), |bodies|, more)
  }

  /** Nowhere in the log does `less` have more pairs running than `more`. */
  ghost predicate OverlapsNoMore(bodies: seq<Body>, less: Reader, more: Reader) {
    forall g: nat :: Overlap(bodies, |bodies|, g, less) <= Overlap(bodies, |bodies|, g, more)
  }

  lemma {:induction false} AreasCompared(events: seq<Event>, m: nat, less: Reader, more: Reader)
    requires m < |events| && Chronological(events) && OverlapsNoMore(Bodies(events), less, more)
    ensures Area(events, |events|, m, less) <= Area(events, |events|, m, more)
  {
    hide Overlap;
    if m > 0 {
      AreasCompared(events, m - 1, less, more);
      assert events[m - 1].time <= events[m].time;
      ProductMonotone(Overlap(Bodies(events), |events|, m - 1, less), Overlap(Bodies(events), |events|, m - 1, more),
                      events[m].time - events[m - 1].time);
    }
  }

  /**
   * For a given sequence of events, one reader's total is at most the other's under EVERY timing if and
   * only if at every gap its overlap is at most the other's.
   */
  lemma ReadersTimeExactly(bodies: seq<Body>, less: Reader, more: Reader)
    requires bodies != []
    ensures (forall times: seq<int> :: TakesNoMore(bodies, less, more, times)) <==> OverlapsNoMore(bodies, less, more)
  {
    hide Overlap, PairedMs, Area;
    if OverlapsNoMore(bodies, less, more) {
      forall times: seq<int>
        ensures TakesNoMore(bodies, less, more, times)
      {
        if |times| == |bodies| && Sorted(times) {
          var events := Timed(bodies, times);
          PairedMsIsArea(events, |events|, less);
          PairedMsIsArea(events, |events|, more);
          AreasCompared(events, |events| - 1, less, more);
        }
      }
    } else {
      var g: nat :| Overlap(bodies, |bodies|, g, less) > Overlap(bodies, |bodies|, g, more);
      JumpMeasuresOverlap(bodies, g, less);
      JumpMeasuresOverlap(bodies, g, more);
      assert !TakesNoMore(bodies, less, more, JumpAt(|bodies|, g));
    }
  }

  // ----- The bound in terms of the calls that are pending -----

  /** The ids of the fold's pairs, completed before `n`, that run across gap `g`. */
  function SpanningIds(bodies: seq<Body>, n: nat, g: nat): set<string>
    requires n <= |bodies|
  {
    if n == 0 then {}
    else if Spans(bodies, n - 1, g, Fold) then SpanningIds(bodies, n - 1, g) + {ResultId(bodies[n - 1]).value}
    else SpanningIds(bodies, n - 1, g)
  }

  /** While gap `g` passes, a call with this id is pending. */
  predicate RunningAcross(bodies: seq<Body>, g: nat, id: string)
    requires g < |bodies|
  {
    CallBefore(bodies, g + 1, id, Fold).Some?
  }

  lemma {:induction false} CallBeforeReachesBack(bodies: seq<Body>, j: nat, id: string, g: nat)
    requires g < j <= |bodies|
    requires CallBefore(bodies, j, id, Fold).Some? && CallBefore(bodies, j, id, Fold).value <= g
    ensures CallBefore(bodies, g + 1, id, Fold) == CallBefore(bodies, j, id, Fold)
    ensures forall k | g < k < j :: ResultId(bodies[k]) != Some(id)
  {
    if g + 1 < j {
      CallBeforeReachesBack(bodies, j - 1, id, g);
    }
  }

  /** Pairs that run across the same gap have different ids, each of them pending there. */
  lemma {:induction false} OverlapCountsPendingIds(bodies: seq<Body>, n: nat, g: nat)
    requires g < |bodies| && n <= |bodies|
    ensures Overlap(bodies, n, g, Fold) == |SpanningIds(bodies, n, g)|
    ensures forall id <- SpanningIds(bodies, n, g) ::
              RunningAcross(bodies, g, id) && exists k | g < k < n :: ResultId(bodies[k]) == Some(id)
  {
    if n > 0 {
      OverlapCountsPendingIds(bodies, n - 1, g);
      if Spans(bodies, n - 1, g, Fold) {
        CallBeforeReachesBack(bodies, n - 1, ResultId(bodies[n - 1]).value, g);
        assert ResultId(bodies[n - 1]) == Some(ResultId(bodies[n - 1]).value);
      }
    }
  }

  function PendingAfter(events: seq<Event>, n: nat): map<string, int>
    requires n <= |events|
  {
    FoldEvents(INITIAL, events[..n]).pendingCalls
  }

  /** At most `k` calls are ever pending at once. */
  predicate PendingAtMost(events: seq<Event>, k: nat) {
    forall n: nat | n <= |events| :: |PendingAfter(events, n)| <= k
  }

  lemma PendingBoundsOverlap(events: seq<Event>, k: nat)
    requires PendingAtMost(events, k)
    ensures OverlapAtMost(Bodies(events), k)
  {
    hide PendingAfter;
    var bodies := Bodies(events);
    forall g: nat
      ensures Overlap(bodies, |bodies|, g, Fold) <= k
    {
      if g + 1 >= |bodies| {
        NothingSpansTheEnd(bodies, |bodies|, g, Fold);
      } else {
        OverlapCountsPendingIds(bodies, |bodies|, g);
        SpanningIdsArePending(events, g);
        SubsetIsNoLarger(SpanningIds(bodies, |bodies|, g), PendingAfter(events, g + 1).Keys);
        assert |PendingAfter(events, g + 1)| <= k;
      }
    }
  }

  lemma SpanningIdsArePending(events: seq<Event>, g: nat)
    requires g + 1 < |events|
    ensures SpanningIds(Bodies(events), |events|, g) <= PendingAfter(events, g + 1).Keys
  {
    forall id <- SpanningIds(Bodies(events), |events|, g)
      ensures id in PendingAfter(events, g + 1)
    {
      OverlapCountsPendingIds(Bodies(events), |events|, g);
      PendingIsCallBefore(events, g + 1, id);
    }
  }

  lemma {:induction false} SubsetIsNoLarger(a: set<string>, b: set<string>)
    requires a <= b
    ensures |a| <= |b|
  {
    if a != {} {
      var x :| x in a;
      SubsetIsNoLarger(a - {x}, b - {x});
    }
  }

  /** The greatest number of simultaneously pending calls, times the log's span, bounds `toolMs`. */
  lemma ToolTimeFitsPending(events: seq<Event>, k: nat)
    requires events != [] && Chronological(events) && PendingAtMost(events, k)
    ensures 0 <= FoldSessionStats(events).toolMs <= k * (events[|events| - 1].time - events[0].time)
  {
    PendingBoundsOverlap(events, k);
    ToolMsIsArea(events);
    AreaBound(events, |events| - 1, k);
  }

  // ----- When the impossible-number check can fire -----

  /** The wall time covers the log. */
  predicate Covers(events: seq<Event>, wallTimeMs: int) {
    events != [] ==> events[|events| - 1].time - events[0].time <= wallTimeMs
  }

  lemma SequentialLogsAreConsistent(events: seq<Event>, wallTimeMs: int)
    requires Chronological(events) && PendingAtMost(events, 1)
    requires 0 <= wallTimeMs && Covers(events, wallTimeMs)
    ensures FindTimingInconsistency(FoldSessionStats(events), wallTimeMs) == None
  {
    if events != [] {
      ToolTimeFitsPending(events, 1);
      ModelTimeFitsInSpan(events);
    }
  }

  ghost predicate NeverFlagged(bodies: seq<Body>, times: seq<int>, wallTimeMs: int) {
    |times| == |bodies| && Sorted(times) && Covers(Timed(bodies, times), wallTimeMs) ==>
      FindTimingInconsistency(FoldSessionStats(Timed(bodies, times)), wallTimeMs) == None
  }

  /**
   * The check stays silent for every timing of a log, and every wall time that covers it, if and only
   * if no two completed calls overlap. Model time alone never sets it off.
   */
  lemma NeverFlaggedExactly(bodies: seq<Body>)
    requires bodies != []
    ensures (forall times: seq<int>, wallTimeMs: int :: NeverFlagged(bodies, times, wallTimeMs)) <==> OverlapAtMost(bodies, 1)
  {
    hide FoldSessionStats, OverlapAtMost, FindTimingInconsistency;
    ToolTimeBoundExactly(bodies, 1);
    if OverlapAtMost(bodies, 1) {
      forall times: seq<int>, wallTimeMs: int
        ensures NeverFlagged(bodies, times, wallTimeMs)
      {
        assert FitsTimes(bodies, 1, times);
        if |times| == |bodies| && Sorted(times) {
          ModelTimeFitsInSpan(Timed(bodies, times));
        }
      }
    } else {
      var times: seq<int> :| !FitsTimes(bodies, 1, times);
      assert !NeverFlagged(bodies, times, times[|times| - 1] - times[0]);
    }
  }

  /** Two calls in flight together: `toolMs` is twice the wall time, and the log is flagged. */
  lemma ConcurrentCallsAreFlagged()
    ensures exists events: seq<Event> ::
              && events != [] && Chronological(events) && Covers(events, 10)
              && FoldSessionStats(events).toolMs == 20
              && FindTimingInconsistency(FoldSessionStats(events), 10) == Some(ToolExceedsWall)
  {
    var e0 := Event(0, ToolCall(Some("a"), None, NoArguments));
    var e1 := Event(0, ToolCall(Some("b"), None, NoArguments));
    var e2 := Event(10, ToolResult(Some(Message(Some("a"), None)), None));
    var e3 := Event(10, ToolResult(Some(Message(Some("b"), None)), None));
    var s1 := ApplyEvent(INITIAL, e0);
    var s2 := ApplyEvent(s1, e1);
    var s3 := ApplyEvent(s2, e2);
    assert s2.pendingCalls == map["a" := 0, "b" := 0];
    assert s3.pendingCalls == map["b" := 0] && s3.stats.toolMs == 10;
    assert ApplyEvent(s3, e3).stats.toolMs == 20;
    var events := [e0, e1, e2, e3];
    FoldOfFour(e0, e1, e2, e3);
    assert FoldSessionStats(events).toolMs == 20;
  }

  lemma FoldOfFour(e0: Event, e1: Event, e2: Event, e3: Event)
    ensures FoldEvents(INITIAL, [e0, e1, e2, e3])
         == ApplyEvent(ApplyEvent(ApplyEvent(ApplyEvent(INITIAL, e0), e1), e2), e3)
  {
    hide ApplyEvent;
    assert [e0][..0] == [];
    assert FoldEvents(INITIAL, [e0]) == ApplyEvent(INITIAL, e0);
    assert [e0, e1][..1] == [e0];
    assert FoldEvents(INITIAL, [e0, e1]) == ApplyEvent(ApplyEvent(INITIAL, e0), e1);
    assert [e0, e1, e2][..2] == [e0, e1];
    assert [e0, e1, e2, e3][..3] == [e0, e1, e2];
  }
}
