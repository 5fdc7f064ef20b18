/**
 * The merge lock as its callers see it: which merges arrived, on which repositories, and which have completed,
 * told by the events of a run alone.
 */
module MergeLockEvents {
  import opened Common
  import opened MergeLock
  import opened MergeLockProof

  /** The repositories of the merges, in order of arrival; merge `m` is the `m`-th. */
  function Arrivals(events: seq<Event>): seq<string> {
    if events == [] then []
    else
      var e := events[|events| - 1];
      Arrivals(events[..|events| - 1]) + (if e.Arrival? then [e.repo] else [])
  }

  /** The commands that were run, each by the merge that ran it. */
  function Commands(events: seq<Event>): seq<nat> {
    if events == [] then []
    else
      var e := events[|events| - 1];
      Commands(events[..|events| - 1]) + (if e.Command? then [e.m] else [])
  }

  predicate Completed(events: seq<Event>, m: nat) {
    Completion(m) in events
  }

  /** Merge `m` has arrived on this repository and has not completed. */
  predicate Unfinished(events: seq<Event>, m: nat, repo: string) {
    m < |Arrivals(events)| && Arrivals(events)[m] == repo && !Completed(events, m)
  }

  /** The merge is past its `await`: it may run a command, and it may complete. */
  ghost predicate HoldsLock(events: seq<Event>, m: nat) {
    Run(events + [Completion(m)]).Some?
  }

  // ----- The state is what the events say -----

  /** The merges of the state are the arrivals, finished when completed. */
  ghost predicate Tells(s: State, events: seq<Event>) {
    && |s.merges| == |Arrivals(events)|
    && (forall m | 0 <= m < |s.merges| ::
          s.merges[m].repo == Arrivals(events)[m] && (s.merges[m].phase.Finished? <==> Completed(events, m)))
    && (forall m: nat | Completed(events, m) :: m < |s.merges|)
    && s.log == Commands(events)
  }

  /** What a step does to the merges, as far as callers can tell. */
  lemma StepTells(s: State, e: Event, m: nat)
    requires Inv(s) && Enabled(s, e)
    ensures var s' := Step(s, e);
            && |s'.merges| == |s.merges| + (if e.Arrival? then 1 else 0)
            && s'.log == s.log + (if e.Command? then [e.m] else [])
            && (e.Arrival? ==> s'.merges[|s.merges|].repo == e.repo && !s'.merges[|s.merges|].phase.Finished?)
            && (m < |s.merges| ==>
                  && s'.merges[m].repo == s.merges[m].repo
                  && (s'.merges[m].phase.Finished? <==> s.merges[m].phase.Finished? || e == Completion(m)))
  {
    hide Waits, Ordered, LocksMatch, ReactionsAreSound, NothingLost, LogIsPast, CommandsInOrder, WellQueued;
    if e.Microtask? {
      var job := s.queue[0];
      assert job in s.queue;
      assert MayRun(job, s.merges, s.settled, s.ran);
      assert MergeMatches(s.merges[job.m], job.m, s.settled, s.ran);
    }
  }

  lemma {:induction false} StateTells(events: seq<Event>)
    requires Run(events).Some?
    ensures Tells(Run(events).value, events)
  {
    hide Inv, Step, Enabled, Tells;
    if events == [] {
      InitialTells();
    } else {
      var front, e := events[..|events| - 1], events[|events| - 1];
      StateTells(front);
      ReachableInv(front);
      assert events == front + [e];
      StepStillTells(Run(front).value, front, e);
    }
  }

  lemma InitialTells()
    ensures Tells(INITIAL, [])
  {
  }

  lemma OneMoreEvent(front: seq<Event>, e: Event)
    ensures Arrivals(front + [e]) == Arrivals(front) + (if e.Arrival? then [e.repo] else [])
    ensures Commands(front + [e]) == Commands(front) + (if e.Command? then [e.m] else [])
    ensures forall m: nat :: Completed(front + [e], m) <==> Completed(front, m) || e == Completion(m)
  {
    assert (front + [e])[..|front|] == front;
  }

  lemma StepStillTells(s: State, front: seq<Event>, e: Event)
    requires Inv(s) && Enabled(s, e) && Tells(s, front)
    ensures Tells(Step(s, e), front + [e])
  {
    hide Inv, Step, Enabled, Completed, Arrivals, Commands;
    OneMoreEvent(front, e);
    CompletionIsKnown(s, e);
    StepTells(s, e, 0);
    forall m: nat | m < |s.merges|
      ensures Step(s, e).merges[m].repo == s.merges[m].repo
      ensures Step(s, e).merges[m].phase.Finished? <==> s.merges[m].phase.Finished? || e == Completion(m)
    {
      StepTells(s, e, m);
    }
    assert !Completed(front, |s.merges|);
  }

  lemma CompletionIsKnown(s: State, e: Event)
    requires Enabled(s, e)
    ensures e.Completion? ==> e.m < |s.merges|
  {
  }

  lemma RunOneMore(events: seq<Event>, e: Event)
    requires Run(events).Some?
    ensures Run(events + [e]).Some? <==> Enabled(Run(events).value, e)
  {
    hide Enabled, Step;
    assert (events + [e])[..|events|] == events;
  }

  lemma HoldsLockExactly(events: seq<Event>, m: nat)
    requires Run(events).Some?
    ensures var s := Run(events).value; HoldsLock(events, m) <==> m < |s.merges| && s.merges[m].phase.Critical?
  {
    hide Run;
    RunOneMore(events, Completion(m));
  }

  // ----- Main results, by events -----

  /** A merge may arrive at any time, and while there are microtasks, one may run; commands come from a lock holder. */
  lemma WhatCanHappen(events: seq<Event>, repo: string, m: nat)
    requires Run(events).Some?
    ensures Run(events + [Arrival(repo)]).Some?
    ensures Run(events + [Command(m)]).Some? <==> HoldsLock(events, m)
    ensures Run(events + [Microtask]).Some? <==> Run(events).value.queue != []
  {
    hide Run, Inv;
    ReachableInv(events);
    HoldsLockExactly(events, m);
    RunOneMore(events, Arrival(repo));
    RunOneMore(events, Command(m));
    RunOneMore(events, Microtask);
    if Run(events).value.queue != [] {
      QueuedIsKnown(Run(events).value);
    }
  }

  /**
   * Mutual exclusion, first come first served: a merge holds the lock, or has completed, only when every merge
   * that arrived before it on its repository has completed.
   */
  lemma MutualExclusionByEvents(events: seq<Event>, a: nat, b: nat)
    requires Run(events).Some? && a < b < |Arrivals(events)| && Arrivals(events)[a] == Arrivals(events)[b]
    requires HoldsLock(events, b) || Completed(events, b)
    ensures Completed(events, a)
  {
    hide Run, Inv, HoldsLock;
    StateTells(events);
    HoldsLockExactly(events, b);
    MutualExclusion(events, a, b);
  }

  /**
   * Nobody waits for another repository, nor for ever: once no microtask is left, an unfinished merge whose
   * predecessors on its own repository have all completed holds the lock, whatever any other repository's
   * merges do.
   */
  lemma NobodyWaitsByEvents(events: seq<Event>, m: nat, repo: string)
    requires Run(events).Some? && !Run(events + [Microtask]).Some?
    requires Unfinished(events, m, repo)
    requires forall a | 0 <= a < m && Arrivals(events)[a] == repo :: Completed(events, a)
    ensures HoldsLock(events, m)
  {
    hide Run, Inv, HoldsLock;
    StateTells(events);
    WhatCanHappen(events, repo, m);
    HoldsLockExactly(events, m);
    NobodyWaitsForever(events, m);
  }

  /** The map has an entry for a repository exactly while a merge on it is unfinished: that of the latest arrival. */
  lemma LockMapByEvents(events: seq<Event>, repo: string)
    requires Run(events).Some?
    ensures var locks := Run(events).value.locks;
            && (repo in locks <==> exists m: nat :: Unfinished(events, m, repo))
            && (repo in locks ==>
                  && Unfinished(events, locks[repo], repo)
                  && forall a | locks[repo] < a < |Arrivals(events)| :: Arrivals(events)[a] != repo)
  {
    hide Run, Inv;
    StateTells(events);
    LockMapIsExact(events, repo);
    ReachableInv(events);
    var s := Run(events).value;
    if repo in s.locks {
      LockedIsUnfinished(s, repo);
      assert Unfinished(events, s.locks[repo], repo);
    }
    forall m: nat | Unfinished(events, m, repo)
      ensures repo in s.locks
    {
      assert s.merges[m].repo == repo && !s.merges[m].phase.Finished?;
    }
  }

  lemma LockedIsUnfinished(s: State, repo: string)
    requires Inv(s) && repo in s.locks
    ensures IsLatest(s.merges, repo, s.locks[repo]) && !s.merges[s.locks[repo]].phase.Finished?
  {
  }

  /** The commands on one repository come in whole blocks, merge by merge, in the order of arrival. */
  lemma CommandsInBlocks(events: seq<Event>, i: nat, k: nat)
    requires Run(events).Some? && i < k < |Commands(events)|
    ensures var a, b := Commands(events)[i], Commands(events)[k];
            && a < |Arrivals(events)| && b < |Arrivals(events)|
            && (Arrivals(events)[a] == Arrivals(events)[b] ==> a <= b)
  {
    hide Run;
    StateTells(events);
    CommandsNeverInterleave(events);
    var log := Run(events).value.log;
    assert log[i] == Commands(events)[i] && log[k] == Commands(events)[k];
  }

  /** At most four microtasks per arrival, whatever else happens. */
  lemma MicrotasksPerArrival(events: seq<Event>)
    requires Run(events).Some?
    ensures MicrotaskCount(events) <= 4 * |Arrivals(events)|
  {
    hide Run;
    StateTells(events);
    MicrotasksAreBounded(events);
  }
}
