/** `startSessionMonitor`: timer ticks coalesced into reconcile passes that never overlap. */
module Scheduler {
  import opened Common

  datatype Flags = Flags(stopped: bool, running: bool, rerunRequested: bool)

  /** A timer tick (or the end of startup recovery), the end of the pass in progress, or the returned stop function. */
  datatype Event = Tick | Settled | Stop

  const INITIAL := Flags(false, false, false)

  /** `run()`; the second result says whether it started a pass. */
  function RunNow(f: Flags): (Flags, bool) {
    if f.stopped then (f, false)
    else if f.running then (f.(rerunRequested := true), false)
    else (f.(running := true), true)
  }

  predicate Enabled(f: Flags, e: Event) {
    e.Settled? ==> f.running
  }

  function Step(f: Flags, e: Event): (Flags, bool) {
    match e
    case Tick => RunNow(f)
    case Settled =>
      var idle := f.(running := false);
      if idle.rerunRequested && !idle.stopped then RunNow(idle.(rerunRequested := false)) else (idle, false)
    case Stop => (f.(stopped := true), false)
  }

  /** The same, as the program has it: three captured variables and a callback that calls `run` again. */
  class Monitor {
    var stopped: bool
    var running: bool
    var rerunRequested: bool
    /** How many passes have been started. */
    var passes: nat

    function View(): Flags
      reads this
    {
      Flags(stopped, running, rerunRequested)
    }

    constructor ()
      ensures View() == INITIAL && passes == 0
    {
      stopped, running, rerunRequested, passes := false, false, false, 0;
    }

    method Run()
      modifies this
      ensures View() == RunNow(old(View())).0
      ensures passes == old(passes) + (if RunNow(old(View())).1 then 1 else 0)
    {
      if stopped {
        return;
      }
      if running {
        rerunRequested := true;
        return;
      }
      running := true;
      passes := passes + 1;
    }

    /** The `finally` callback of a pass. */
    method PassSettled()
      requires running
      modifies this
      ensures View() == Step(old(View()), Settled).0
      ensures passes == old(passes) + (if Step(old(View()), Settled).1 then 1 else 0)
    {
      running := false;
      if rerunRequested && !stopped {
        rerunRequested := false;
        Run();
      }
    }

    method StopMonitor()
      modifies this
      ensures View() == Step(old(View()), Stop).0 && passes == old(passes)
    {
      stopped := true;
    }
  }

  // ----- Runs -----

  /** The flags after the first `n` events. */
  function After(events: seq<Event>, n: nat): Flags
    requires n <= |events|
  {
    if n == 0 then INITIAL else Step(After(events, n - 1), events[n - 1]).0
  }

  /** A pass settles only while one is in progress. */
  ghost predicate IsRun(events: seq<Event>) {
    forall n | 0 <= n < |events| :: Enabled(After(events, n), events[n])
  }

  /** The `n`-th event starts a pass. */
  predicate Starts(events: seq<Event>, n: nat)
    requires n < |events|
  {
    Step(After(events, n), events[n]).1
  }

  function StartCount(events: seq<Event>, n: nat): nat
    requires n <= |events|
  {
    if n == 0 then 0 else StartCount(events, n - 1) + (if Starts(events, n - 1) then 1 else 0)
  }

  function SettleCount(events: seq<Event>, n: nat): nat
    requires n <= |events|
  {
    if n == 0 then 0 else SettleCount(events, n - 1) + (if events[n - 1].Settled? then 1 else 0)
  }

  /** Passes never overlap: at any point at most one has been started and has not settled. */
  lemma {:induction false} PassesNeverOverlap(events: seq<Event>, n: nat)
    requires IsRun(events) && n <= |events|
    ensures StartCount(events, n) == SettleCount(events, n) + (if After(events, n).running then 1 else 0)
  {
    hide Step;
    if n > 0 {
      PassesNeverOverlap(events, n - 1);
      assert Enabled(After(events, n - 1), events[n - 1]);
      OneStepBalances(After(events, n - 1), events[n - 1]);
    }
  }

  lemma OneStepBalances(f: Flags, e: Event)
    requires Enabled(f, e)
    ensures var (next, starts) := Step(f, e);
            (if f.running then 1 else 0) + (if starts then 1 else 0)
            == (if next.running then 1 else 0) + (if e.Settled? then 1 else 0)
  {
  }

  /** One of the first `n` events is the call of the returned stop function. */
  predicate StopCalled(events: seq<Event>, n: nat)
    requires n <= |events|
  {
    exists k | 0 <= k < n :: events[k].Stop?
  }

  /** Nothing but the returned stop function ever stops the monitor, and nothing undoes it. */
  lemma {:induction false} StoppedExactly(events: seq<Event>, n: nat)
    requires n <= |events|
    ensures After(events, n).stopped <==> StopCalled(events, n)
  {
    if n > 0 {
      StoppedExactly(events, n - 1);
    }
  }

  /** No pass starts once the monitor has been stopped. */
  lemma NoneStartsAfterStop(events: seq<Event>, n: nat)
    requires n < |events| && StopCalled(events, n + 1)
    ensures !Starts(events, n)
  {
    StoppedExactly(events, n);
  }

  ghost predicate StartsWithin(events: seq<Event>, m: nat, n: nat)
    requires n <= |events|
  {
    exists j | m <= j < n :: Starts(events, j)
  }

  /** Until it is stopped, the monitor holds a request only while a pass is in progress. */
  lemma {:induction false} IdleHasNoRequest(events: seq<Event>, n: nat)
    requires n <= |events| && !StopCalled(events, n)
    ensures !After(events, n).running ==> !After(events, n).rerunRequested
  {
    StoppedExactly(events, n);
    if n > 0 {
      IdleHasNoRequest(events, n - 1);
    }
  }

  /** From a state in which a pass runs, until it settles: nothing starts, and a request is a tick. */
  lemma {:induction false} WhileRunning(events: seq<Event>, a: nat, b: nat)
    requires a <= b <= |events| && After(events, a).running && !StopCalled(events, b)
    requires forall j | a <= j < b :: !events[j].Settled?
    ensures After(events, b).running && !StartsWithin(events, a, b)
    ensures After(events, b).rerunRequested <==>
              After(events, a).rerunRequested || exists j | a <= j < b :: events[j].Tick?
  {
    StoppedExactly(events, b);
    if a < b {
      StoppedExactly(events, b - 1);
      WhileRunning(events, a, b - 1);
      assert !Starts(events, b - 1);
    }
  }

  /**
   * Ticks are coalesced. While a pass that started at `s` is in progress nothing starts; and where it
   * settles, one pass starts exactly when at least one tick came in between - one, however many came.
   */
  lemma TicksAreCoalesced(events: seq<Event>, s: nat, b: nat)
    requires s < b < |events| && Starts(events, s) && events[b].Settled? && !StopCalled(events, b)
    requires forall j | s < j < b :: !events[j].Settled?
    ensures !StartsWithin(events, s + 1, b)
    ensures Starts(events, b) <==> exists j | s < j < b :: events[j].Tick?
  {
    IdleHasNoRequest(events, s);
    StoppedExactly(events, b);
    WhileRunning(events, s + 1, b);
    assert !After(events, s + 1).rerunRequested;
  }

  /**
   * No tick is lost. Over any run in which nothing has called the stop function, a tick that starts no pass
   * itself finds a pass in progress, and another starts the moment that one settles.
   */
  lemma EveryTickIsServed(events: seq<Event>, i: nat, b: nat)
    requires IsRun(events) && i < b <= |events| && events[i].Tick? && !StopCalled(events, b)
    requires forall j | i < j < b :: !events[j].Settled?
    ensures StartCount(events, b) == SettleCount(events, b) + 1
    ensures Starts(events, i) <==> StartCount(events, i) == SettleCount(events, i)
    ensures b < |events| && events[b].Settled? ==> StartsWithin(events, i, b + 1)
  {
    hide Step, RunNow, IsRun, Starts;
    PassesNeverOverlap(events, i);
    PassesNeverOverlap(events, b);
    TickLands(events, i);
    WhileRunning(events, i + 1, b);
    if b < |events| && events[b].Settled? {
      if !Starts(events, i) {
        RequestStarts(events, b);
      }
    }
  }

  lemma TickLands(events: seq<Event>, i: nat)
    requires i < |events| && events[i].Tick? && !StopCalled(events, i)
    ensures After(events, i + 1).running
    ensures Starts(events, i) <==> !After(events, i).running
    ensures !Starts(events, i) ==> After(events, i + 1).rerunRequested
  {
    StoppedExactly(events, i);
  }

  lemma RequestStarts(events: seq<Event>, b: nat)
    requires b < |events| && events[b].Settled? && After(events, b).rerunRequested && !StopCalled(events, b)
    ensures Starts(events, b)
  {
    StoppedExactly(events, b);
  }
}
