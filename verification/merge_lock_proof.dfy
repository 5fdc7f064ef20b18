/** Every step of the merge lock keeps its invariant, and what follows for whole runs. */
module MergeLockProof {
  import opened Common
  import opened MergeLock

  lemma PopKeepsOrder(queue: seq<Job>)
    requires queue != [] && WellQueued(queue)
    ensures WellQueued(queue[1..]) && queue[0] !in queue[1..]
    ensures forall j :: j in queue[1..] <==> j in queue && j != queue[0]
  {
    assert queue == [queue[0]] + queue[1..];
  }

  lemma PushKeepsOrder(queue: seq<Job>, job: Job)
    requires WellQueued(queue) && job !in queue
    requires job.Install? ==> Enter(job.m) !in queue
    ensures WellQueued(queue + [job])
  {
  }

  /** Changes to the merges that a step other than an arrival makes: nothing but a release or a phase. */
  ghost predicate Advanced(before: seq<Merge>, after: seq<Merge>) {
    && |before| == |after|
    && forall k | 0 <= k < |before| ::
         && after[k].repo == before[k].repo && after[k].previous == before[k].previous
         && (before[k].phase.Finished? ==> after[k].phase.Finished?)
         && (!before[k].phase.Waiting? ==> !after[k].phase.Waiting?)
  }

  /** One merge that does not go back and does not finish. */
  lemma MergesAdvance(merges: seq<Merge>, m: nat, merge: Merge)
    requires m < |merges| && merge.repo == merges[m].repo && merge.previous == merges[m].previous
    requires merge.phase == merges[m].phase || (merges[m].phase.Waiting? && merge.phase.Critical?)
    ensures Advanced(merges, merges[m := merge])
    ensures forall k | 0 <= k < |merges| :: merges[k].phase.Finished? <==> merges[m := merge][k].phase.Finished?
  {
  }

  lemma OrderedAfterRelease(merges: seq<Merge>, m: nat)
    requires m < |merges| && Ordered(merges)
    ensures Ordered(merges[m := merges[m].(release := Resolver)])
  {
  }

  lemma OrderedAfterEnter(merges: seq<Merge>, m: nat)
    requires m < |merges| && Ordered(merges) && merges[m].phase.Waiting?
    requires forall a | 0 <= a < m :: merges[a].repo == merges[m].repo ==> merges[a].phase.Finished?
    ensures Ordered(merges[m := merges[m].(phase := Critical)])
  {
  }

  lemma QueuedIsKnown(s: State)
    requires Inv(s) && s.queue != []
    ensures s.queue[0].m < |s.merges|
  {
    assert s.queue[0] in s.queue;
  }

  lemma WaitsMonotone(before: seq<Merge>, after: seq<Merge>, settled: set<Promise>, settled': set<Promise>)
    requires Waits(before, settled) && Advanced(before, after) && settled <= settled'
    ensures Waits(after, settled')
  {
    forall m | 0 <= m < |after|
      ensures PreviousIsRight(after, settled', m)
    {
      assert PreviousIsRight(before, settled, m);
    }
  }

  lemma LogMonotone(s: State, s': State)
    requires LogIsPast(s) && CommandsInOrder(s) && Advanced(s.merges, s'.merges) && s'.log == s.log
    ensures LogIsPast(s') && CommandsInOrder(s')
  {
  }

  lemma LatestAdvanced(before: seq<Merge>, after: seq<Merge>, repo: string, m: nat)
    requires Advanced(before, after) && IsLatest(before, repo, m)
    ensures IsLatest(after, repo, m)
  {
  }

  lemma LocksAdvanced(before: seq<Merge>, after: seq<Merge>, locks: map<string, nat>)
    requires LocksMatch(before, locks) && Advanced(before, after)
    requires forall k | 0 <= k < |before| :: before[k].phase.Finished? <==> after[k].phase.Finished?
    ensures LocksMatch(after, locks)
  {
    forall repo <- locks
      ensures IsLatest(after, repo, locks[repo])
    {
      LatestAdvanced(before, after, repo, locks[repo]);
    }
  }

  /** Jobs still due stay due when jobs only leave the queue by running. */
  lemma NothingLostMonotone(m: nat, previous: Promise, s: State, s': State)
    requires NothingLostOf(m, previous, s.reactions, s.queue, s.settled, s.ran)
    requires s'.settled == s.settled && s.ran <= s'.ran
    requires forall j <- s.queue :: j in s'.queue || j in s'.ran
    requires forall p <- s.reactions :: Subscribed(s'.reactions, p, s.reactions[p])
    requires Install(m) in s'.ran ==> Install(m) in s.ran || Due(Adopt(m), s'.queue, s'.ran)
    requires Adopt(m) in s'.ran && Adopt(m) !in s.ran ==>
               if Inner(m) in s'.settled then Due(Settle(m), s'.queue, s'.ran)
               else Subscribed(s'.reactions, Inner(m), [Settle(m)])
    ensures NothingLostOf(m, previous, s'.reactions, s'.queue, s'.settled, s'.ran)
  {
  }

  // ----- Microtask: the callback of `previousLock.then` -----

  lemma InstallKeepsMerges(s: State, m: nat)
    requires Inv(s) && s.queue != [] && s.queue[0] == Install(m)
    ensures m < |s.merges| && Enabled(s, Microtask)
    ensures var s' := Step(s, Microtask);
            Waits(s'.merges, s'.settled) && Ordered(s'.merges) && LocksMatch(s'.merges, s'.locks)
            && LogIsPast(s') && CommandsInOrder(s')
  {
    hide PromisesMatch, QueueIsSound, ReactionsAreSound, NothingLost, LocksMatch, Waits, LogIsPast, CommandsInOrder, Ordered;
    QueuedIsKnown(s);
    var s' := Step(s, Microtask);
    MergesAdvance(s.merges, m, s.merges[m].(release := Resolver));
    OrderedAfterRelease(s.merges, m);
    WaitsMonotone(s.merges, s'.merges, s.settled, s'.settled);
    LogMonotone(s, s');
    LocksAdvanced(s.merges, s'.merges, s.locks);
  }

  lemma InstallKeepsPromises(s: State, m: nat)
    requires Inv(s) && s.queue != [] && s.queue[0] == Install(m)
    ensures m < |s.merges|
    ensures var s' := Step(s, Microtask);
            PromisesMatch(s'.merges, s'.settled, s'.ran) && QueueIsSound(s'.queue, s'.merges, s'.settled, s'.ran)
  {
    hide Waits, Ordered, LocksMatch, ReactionsAreSound, NothingLost, LogIsPast, CommandsInOrder, WellQueued;
    assert s.queue[0] in s.queue;
    PopKeepsOrder(s.queue);
    assert MergeMatches(s.merges[m], m, s.settled, s.ran);
    assert Adopt(m) !in s.queue;
    PushKeepsOrder(s.queue[1..], Adopt(m));
    var s' := Step(s, Microtask);
    forall k | 0 <= k < |s'.merges|
      ensures MergeMatches(s'.merges[k], k, s'.settled, s'.ran)
    {
      assert MergeMatches(s.merges[k], k, s.settled, s.ran);
    }
  }

  lemma InstallKeepsJobs(s: State, m: nat)
    requires Inv(s) && s.queue != [] && s.queue[0] == Install(m)
    ensures m < |s.merges|
    ensures var s' := Step(s, Microtask);
            ReactionsAreSound(s'.reactions, s'.merges, s'.settled, s'.ran) && NothingLost(s')
  {
    hide Waits, Ordered, LocksMatch, LogIsPast, CommandsInOrder, PromisesMatch, WellQueued, NothingLostOf;
    assert s.queue[0] in s.queue;
    PopKeepsOrder(s.queue);
    var s' := Step(s, Microtask);
    forall k | 0 <= k < |s'.merges|
      ensures NothingLostOf(k, s'.merges[k].previous, s'.reactions, s'.queue, s'.settled, s'.ran)
    {
      assert NothingLostOf(k, s.merges[k].previous, s.reactions, s.queue, s.settled, s.ran);
      NothingLostMonotone(k, s.merges[k].previous, s, s');
    }
  }

  lemma InstallKeepsInv(s: State, m: nat)
    requires Inv(s) && s.queue != [] && s.queue[0] == Install(m)
    ensures Enabled(s, Microtask) && Inv(Step(s, Microtask))
  {
    hide Step, Waits, Ordered, PromisesMatch, LocksMatch, QueueIsSound, ReactionsAreSound, NothingLost, LogIsPast, CommandsInOrder;
    InstallKeepsMerges(s, m);
    InstallKeepsPromises(s, m);
    InstallKeepsJobs(s, m);
  }

  // ----- Microtask: the resumption after `await previousLock` -----

  /** At the front of the queue, a resumption finds its resolver installed and its predecessor finished. */
  lemma EnterIsNext(s: State, m: nat)
    requires Inv(s) && s.queue != [] && s.queue[0] == Enter(m)
    ensures m < |s.merges| && Install(m) in s.ran && s.merges[m].phase.Waiting?
    ensures forall a | 0 <= a < m :: s.merges[a].repo == s.merges[m].repo ==> s.merges[a].phase.Finished?
  {
    hide LocksMatch, ReactionsAreSound, LogIsPast, CommandsInOrder;
    assert s.queue[0] in s.queue;
    assert NothingLostOf(m, s.merges[m].previous, s.reactions, s.queue, s.settled, s.ran);
    assert Install(m) !in s.queue;
    assert MergeMatches(s.merges[m], m, s.settled, s.ran);
    assert PreviousIsRight(s.merges, s.settled, m);
    if s.merges[m].previous.Lock? {
      var p := s.merges[m].previous.m;
      assert MergeMatches(s.merges[p], p, s.settled, s.ran);
      assert s.merges[p].phase.Finished?;
    }
  }

  lemma EnterKeepsMerges(s: State, m: nat)
    requires Inv(s) && s.queue != [] && s.queue[0] == Enter(m)
    ensures m < |s.merges| && Enabled(s, Microtask)
    ensures var s' := Step(s, Microtask);
            Waits(s'.merges, s'.settled) && Ordered(s'.merges) && LocksMatch(s'.merges, s'.locks)
            && LogIsPast(s') && CommandsInOrder(s')
  {
    hide PromisesMatch, QueueIsSound, ReactionsAreSound, NothingLost, LocksMatch, Waits, LogIsPast, CommandsInOrder, Ordered;
    EnterIsNext(s, m);
    var s' := Step(s, Microtask);
    MergesAdvance(s.merges, m, s.merges[m].(phase := Critical));
    OrderedAfterEnter(s.merges, m);
    WaitsMonotone(s.merges, s'.merges, s.settled, s'.settled);
    LogMonotone(s, s');
    LocksAdvanced(s.merges, s'.merges, s.locks);
  }

  lemma EnterKeepsPromises(s: State, m: nat)
    requires Inv(s) && s.queue != [] && s.queue[0] == Enter(m)
    ensures m < |s.merges|
    ensures var s' := Step(s, Microtask);
            PromisesMatch(s'.merges, s'.settled, s'.ran) && QueueIsSound(s'.queue, s'.merges, s'.settled, s'.ran)
  {
    hide Waits, Ordered, LocksMatch, ReactionsAreSound, NothingLost, LogIsPast, CommandsInOrder, WellQueued;
    EnterIsNext(s, m);
    PopKeepsOrder(s.queue);
    assert forall j <- s.queue[1..] :: j in s.queue && j != Enter(m);
    var s' := Step(s, Microtask);
    forall k | 0 <= k < |s'.merges|
      ensures MergeMatches(s'.merges[k], k, s'.settled, s'.ran)
    {
      assert MergeMatches(s.merges[k], k, s.settled, s.ran);
    }
  }

  lemma EnterKeepsJobs(s: State, m: nat)
    requires Inv(s) && s.queue != [] && s.queue[0] == Enter(m)
    ensures m < |s.merges|
    ensures var s' := Step(s, Microtask);
            ReactionsAreSound(s'.reactions, s'.merges, s'.settled, s'.ran) && NothingLost(s')
  {
    hide Waits, Ordered, LocksMatch, LogIsPast, CommandsInOrder, PromisesMatch, WellQueued, NothingLostOf;
    assert s.queue[0] in s.queue;
    PopKeepsOrder(s.queue);
    var s' := Step(s, Microtask);
    forall k | 0 <= k < |s'.merges|
      ensures NothingLostOf(k, s'.merges[k].previous, s'.reactions, s'.queue, s'.settled, s'.ran)
    {
      assert NothingLostOf(k, s.merges[k].previous, s.reactions, s.queue, s.settled, s.ran);
      NothingLostMonotone(k, s.merges[k].previous, s, s');
    }
  }

  lemma EnterKeepsInv(s: State, m: nat)
    requires Inv(s) && s.queue != [] && s.queue[0] == Enter(m)
    ensures Enabled(s, Microtask) && Inv(Step(s, Microtask))
  {
    hide Step, Waits, Ordered, PromisesMatch, LocksMatch, QueueIsSound, ReactionsAreSound, NothingLost, LogIsPast, CommandsInOrder;
    EnterKeepsMerges(s, m);
    EnterKeepsPromises(s, m);
    EnterKeepsJobs(s, m);
  }

  // ----- Microtask: `Lock(m)` subscribes to the promise its callback returned -----

  lemma AdoptKeepsPromises(s: State, m: nat)
    requires Inv(s) && s.queue != [] && s.queue[0] == Adopt(m)
    ensures m < |s.merges| && Enabled(s, Microtask)
    ensures var s' := Step(s, Microtask);
            PromisesMatch(s'.merges, s'.settled, s'.ran) && QueueIsSound(s'.queue, s'.merges, s'.settled, s'.ran)
            && ReactionsAreSound(s'.reactions, s'.merges, s'.settled, s'.ran)
  {
    hide Waits, Ordered, LocksMatch, NothingLost, LogIsPast, CommandsInOrder, WellQueued;
    assert s.queue[0] in s.queue;
    PopKeepsOrder(s.queue);
    assert MergeMatches(s.merges[m], m, s.settled, s.ran);
    assert Settle(m) !in s.queue;
    assert Inner(m) !in s.reactions;
    PushKeepsOrder(s.queue[1..], Settle(m));
    var s' := Step(s, Microtask);
    forall k | 0 <= k < |s'.merges|
      ensures MergeMatches(s'.merges[k], k, s'.settled, s'.ran)
    {
      assert MergeMatches(s.merges[k], k, s.settled, s.ran);
    }
  }

  lemma AdoptKeepsJobs(s: State, m: nat)
    requires Inv(s) && s.queue != [] && s.queue[0] == Adopt(m)
    ensures m < |s.merges| && NothingLost(Step(s, Microtask))
  {
    hide Waits, Ordered, LocksMatch, LogIsPast, CommandsInOrder, PromisesMatch, WellQueued, NothingLostOf;
    assert s.queue[0] in s.queue;
    PopKeepsOrder(s.queue);
    assert Inner(m) !in s.reactions;
    var s' := Step(s, Microtask);
    forall k | 0 <= k < |s'.merges|
      ensures NothingLostOf(k, s'.merges[k].previous, s'.reactions, s'.queue, s'.settled, s'.ran)
    {
      assert NothingLostOf(k, s.merges[k].previous, s.reactions, s.queue, s.settled, s.ran);
      NothingLostMonotone(k, s.merges[k].previous, s, s');
    }
  }

  lemma AdoptKeepsInv(s: State, m: nat)
    requires Inv(s) && s.queue != [] && s.queue[0] == Adopt(m)
    ensures Enabled(s, Microtask) && Inv(Step(s, Microtask))
  {
    AdoptKeepsPromises(s, m);
    AdoptKeepsJobs(s, m);
    hide Waits, Ordered, PromisesMatch, LocksMatch, QueueIsSound, ReactionsAreSound, NothingLost;
  }

  // ----- Microtask: a lock is resolved, and the merge behind it may go on -----

  /** The two jobs of the merge that waits for `Lock(m)` are nowhere yet. */
  lemma WaiterIsElsewhere(s: State, m: nat)
    requires Inv(s) && s.queue != [] && s.queue[0] == Settle(m) && Lock(m) in s.reactions
    ensures var k := s.reactions[Lock(m)][0].m;
            && k < |s.merges| && s.merges[k].previous == Lock(m)
            && s.reactions[Lock(m)] == [Install(k)] + [Enter(k)]
            && Install(k) !in s.queue && Enter(k) !in s.queue && Install(k) !in s.ran && Enter(k) !in s.ran
  {
    hide Waits, Ordered, LocksMatch, NothingLost, LogIsPast, CommandsInOrder, WellQueued;
    var k := s.reactions[Lock(m)][0].m;
    assert MergeMatches(s.merges[k], k, s.settled, s.ran);
  }

  lemma SettleKeepsPromises(s: State, m: nat)
    requires Inv(s) && s.queue != [] && s.queue[0] == Settle(m)
    ensures m < |s.merges| && Enabled(s, Microtask)
    ensures var s' := Step(s, Microtask);
            PromisesMatch(s'.merges, s'.settled, s'.ran) && QueueIsSound(s'.queue, s'.merges, s'.settled, s'.ran)
  {
    hide Waits, Ordered, LocksMatch, ReactionsAreSound, NothingLost, LogIsPast, CommandsInOrder, WellQueued;
    assert s.queue[0] in s.queue;
    PopKeepsOrder(s.queue);
    var s' := Step(s, Microtask);
    assert MergeMatches(s.merges[m], m, s.settled, s.ran);
    forall k | 0 <= k < |s'.merges|
      ensures MergeMatches(s'.merges[k], k, s'.settled, s'.ran)
    {
      assert MergeMatches(s.merges[k], k, s.settled, s.ran);
    }
    if Lock(m) in s.reactions {
      WaiterIsElsewhere(s, m);
      var k := s.reactions[Lock(m)][0].m;
      PushKeepsOrder(s.queue[1..], Install(k));
      PushKeepsOrder(s.queue[1..] + [Install(k)], Enter(k));
      assert s'.queue == s.queue[1..] + [Install(k)] + [Enter(k)];
    } else {
      assert s'.queue == s.queue[1..];
    }
  }

  lemma SettleKeepsJobs(s: State, m: nat)
    requires Inv(s) && s.queue != [] && s.queue[0] == Settle(m)
    ensures m < |s.merges|
    ensures var s' := Step(s, Microtask);
            ReactionsAreSound(s'.reactions, s'.merges, s'.settled, s'.ran) && NothingLost(s')
  {
    hide Waits, Ordered, LocksMatch, LogIsPast, CommandsInOrder, WellQueued, MergeMatches;
    assert s.queue[0] in s.queue;
    PopKeepsOrder(s.queue);
    var s' := Step(s, Microtask);
    assert Lock(m) !in s.settled by {
      SettledLockHasSettled(s, m);
    }
    forall k | 0 <= k < |s'.merges|
      ensures NothingLostOf(k, s'.merges[k].previous, s'.reactions, s'.queue, s'.settled, s'.ran)
    {
      assert NothingLostOf(k, s.merges[k].previous, s.reactions, s.queue, s.settled, s.ran);
    }
  }

  lemma SettledLockHasSettled(s: State, m: nat)
    requires Inv(s) && m < |s.merges|
    ensures Lock(m) in s.settled <==> Settle(m) in s.ran
    ensures Lock(m) in s.settled ==> s.merges[m].phase.Finished?
    ensures Inner(m) in s.settled <==> s.merges[m].phase.Finished?
    ensures s.merges[m].phase.Critical? ==> s.merges[m].release.Resolver?
  {
    assert MergeMatches(s.merges[m], m, s.settled, s.ran);
  }

  lemma SettleKeepsInv(s: State, m: nat)
    requires Inv(s) && s.queue != [] && s.queue[0] == Settle(m)
    ensures Enabled(s, Microtask) && Inv(Step(s, Microtask))
  {
    SettleKeepsPromises(s, m);
    SettleKeepsJobs(s, m);
    hide Waits, Ordered, PromisesMatch, LocksMatch, QueueIsSound, ReactionsAreSound, NothingLost, LogIsPast, CommandsInOrder;
    var s' := Step(s, Microtask);
    assert Advanced(s.merges, s'.merges);
    WaitsMonotone(s.merges, s'.merges, s.settled, s'.settled);
    LogMonotone(s, s');
  }

  // ----- The `finally` block -----

  lemma FinishKeepsMerges(s: State, m: nat)
    requires Inv(s) && Enabled(s, Completion(m))
    ensures var s' := Finish(s, m);
            Waits(s'.merges, s'.settled) && Ordered(s'.merges) && LocksMatch(s'.merges, s'.locks)
            && LogIsPast(s') && CommandsInOrder(s')
  {
    hide PromisesMatch, QueueIsSound, ReactionsAreSound, NothingLost;
    var s' := Finish(s, m);
    assert Advanced(s.merges, s'.merges);
    WaitsMonotone(s.merges, s'.merges, s.settled, s'.settled);
    LogMonotone(s, s');
    FinishKeepsLocks(s, m);
  }

  lemma FinishKeepsLocks(s: State, m: nat)
    requires Inv(s) && Enabled(s, Completion(m))
    ensures LocksMatch(Finish(s, m).merges, Finish(s, m).locks)
  {
    hide PromisesMatch, QueueIsSound, ReactionsAreSound, NothingLost, Waits, LogIsPast, CommandsInOrder;
    var s' := Finish(s, m);
    assert Advanced(s.merges, s'.merges);
    forall repo <- s'.locks
      ensures IsLatest(s'.merges, repo, s'.locks[repo]) && !s'.merges[s'.locks[repo]].phase.Finished?
    {
      LatestAdvanced(s.merges, s'.merges, repo, s.locks[repo]);
    }
    forall a | 0 <= a < |s'.merges|
      ensures !s'.merges[a].phase.Finished? ==> s'.merges[a].repo in s'.locks
    {
      assert !s.merges[a].phase.Finished? ==> s.merges[a].repo in s.locks;
      if a != m && s.merges[a].repo == s.merges[m].repo && s.merges[m].repo in s.locks && s.locks[s.merges[m].repo] == m {
        assert IsLatest(s.merges, s.merges[m].repo, m);
      }
    }
  }

  lemma FinishKeepsPromises(s: State, m: nat)
    requires Inv(s) && Enabled(s, Completion(m))
    ensures var s' := Finish(s, m);
            PromisesMatch(s'.merges, s'.settled, s'.ran) && QueueIsSound(s'.queue, s'.merges, s'.settled, s'.ran)
  {
    hide Waits, Ordered, LocksMatch, NothingLost, LogIsPast, CommandsInOrder, WellQueued;
    var s' := Finish(s, m);
    SettledLockHasSettled(s, m);
    assert Settle(m) !in s.queue;
    forall k | 0 <= k < |s'.merges|
      ensures MergeMatches(s'.merges[k], k, s'.settled, s'.ran)
    {
      assert MergeMatches(s.merges[k], k, s.settled, s.ran);
    }
    if Inner(m) in s.reactions {
      PushKeepsOrder(s.queue, Settle(m));
    } else {
      assert s'.queue == s.queue;
    }
  }

  lemma FinishKeepsJobs(s: State, m: nat)
    requires Inv(s) && Enabled(s, Completion(m))
    ensures var s' := Finish(s, m);
            ReactionsAreSound(s'.reactions, s'.merges, s'.settled, s'.ran) && NothingLost(s')
  {
    hide Waits, Ordered, LocksMatch, LogIsPast, CommandsInOrder, WellQueued, PromisesMatch, QueueIsSound;
    var s' := Finish(s, m);
    SettledLockHasSettled(s, m);
    forall k | 0 <= k < |s'.merges|
      ensures NothingLostOf(k, s'.merges[k].previous, s'.reactions, s'.queue, s'.settled, s'.ran)
    {
      assert NothingLostOf(k, s.merges[k].previous, s.reactions, s.queue, s.settled, s.ran);
      PreviousIsNotInner(s, k);
    }
  }

  lemma PreviousIsNotInner(s: State, k: nat)
    requires Inv(s) && k < |s.merges|
    ensures !s.merges[k].previous.Inner?
  {
    assert PreviousIsRight(s.merges, s.settled, k);
  }

  lemma FinishKeepsInv(s: State, m: nat)
    requires Inv(s) && Enabled(s, Completion(m))
    ensures Inv(Step(s, Completion(m)))
  {
    FinishKeepsMerges(s, m);
    FinishKeepsPromises(s, m);
    FinishKeepsJobs(s, m);
    hide Finish, Waits, Ordered, PromisesMatch, LocksMatch, QueueIsSound, ReactionsAreSound, NothingLost, LogIsPast, CommandsInOrder;
  }

  // ----- A merge arrives -----

  lemma WaiterCameLater(s: State, k: nat)
    requires Inv(s) && Lock(k) in s.reactions
    ensures var j := s.reactions[Lock(k)][0].m; k < j < |s.merges| && s.merges[j].repo == s.merges[k].repo
  {
    hide QueueIsSound, NothingLost, LogIsPast, CommandsInOrder, Ordered, LocksMatch, PromisesMatch;
    assert PreviousIsRight(s.merges, s.settled, s.reactions[Lock(k)][0].m);
  }

  /** The lock in the map belongs to an unfinished merge that nobody waits for yet. */
  lemma HeldLockIsFree(s: State, repo: string)
    requires Inv(s) && repo in s.locks
    ensures s.locks[repo] < |s.merges|
    ensures Lock(s.locks[repo]) !in s.settled && Lock(s.locks[repo]) !in s.reactions
  {
    hide QueueIsSound, NothingLost, LogIsPast, CommandsInOrder, Ordered;
    var k := s.locks[repo];
    assert IsLatest(s.merges, repo, k);
    SettledLockHasSettled(s, k);
    if Lock(k) in s.reactions {
      WaiterCameLater(s, k);
    }
  }

  /** A new merge is nowhere to be found before it arrives. */
  lemma NewcomerIsNew(s: State)
    requires Inv(s)
    ensures var n := |s.merges|;
            && Immediate(n) !in s.settled && Lock(n) !in s.settled && Inner(n) !in s.settled
            && (forall p <- s.reactions :: p.m < n)
            && (forall j <- s.queue :: j.m < n) && (forall j <- s.ran :: j.m < n)
  {
  }

  lemma ArriveKeepsMerges(s: State, repo: string)
    requires Inv(s)
    ensures var s' := Arrive(s, repo);
            Waits(s'.merges, s'.settled) && Ordered(s'.merges) && LogIsPast(s') && CommandsInOrder(s')
  {
    hide PromisesMatch, QueueIsSound, ReactionsAreSound, NothingLost;
    var s' := Arrive(s, repo);
    var n := |s.merges|;
    if repo in s.locks {
      assert IsLatest(s.merges, repo, s.locks[repo]);
      HeldLockIsFree(s, repo);
    }
    forall k | 0 <= k < |s'.merges|
      ensures PreviousIsRight(s'.merges, s'.settled, k)
    {
      assert k < n ==> PreviousIsRight(s.merges, s.settled, k);
    }
  }

  lemma ArriveKeepsLocks(s: State, repo: string)
    requires Inv(s)
    ensures var s' := Arrive(s, repo); LocksMatch(s'.merges, s'.locks)
  {
    hide PromisesMatch, QueueIsSound, ReactionsAreSound, NothingLost, Waits, Ordered, LogIsPast, CommandsInOrder;
    var s' := Arrive(s, repo);
    forall r <- s'.locks
      ensures IsLatest(s'.merges, r, s'.locks[r]) && !s'.merges[s'.locks[r]].phase.Finished?
    {
      assert r != repo ==> IsLatest(s.merges, r, s.locks[r]);
    }
    forall a | 0 <= a < |s'.merges|
      ensures !s'.merges[a].phase.Finished? ==> s'.merges[a].repo in s'.locks
    {
      assert a < |s.merges| && !s.merges[a].phase.Finished? ==> s.merges[a].repo in s.locks;
    }
  }

  lemma ArriveKeepsPromises(s: State, repo: string)
    requires Inv(s)
    ensures var s' := Arrive(s, repo); PromisesMatch(s'.merges, s'.settled, s'.ran)
  {
    hide QueueIsSound, ReactionsAreSound, NothingLost, Waits, Ordered, LogIsPast, CommandsInOrder, LocksMatch;
    NewcomerIsNew(s);
    var s' := Arrive(s, repo);
    if repo in s.locks {
      HeldLockIsFree(s, repo);
    }
    forall k | 0 <= k < |s'.merges|
      ensures MergeMatches(s'.merges[k], k, s'.settled, s'.ran)
    {
      assert k < |s.merges| ==> MergeMatches(s.merges[k], k, s.settled, s.ran);
    }
  }

  lemma ArriveKeepsQueue(s: State, repo: string)
    requires Inv(s)
    ensures var s' := Arrive(s, repo); QueueIsSound(s'.queue, s'.merges, s'.settled, s'.ran)
  {
    hide ReactionsAreSound, NothingLost, Waits, Ordered, LogIsPast, CommandsInOrder, LocksMatch, PromisesMatch, WellQueued;
    NewcomerIsNew(s);
    var s' := Arrive(s, repo);
    var n := |s.merges|;
    if repo in s.locks {
      HeldLockIsFree(s, repo);
      assert s'.queue == s.queue;
    } else {
      PushKeepsOrder(s.queue, Install(n));
      PushKeepsOrder(s.queue + [Install(n)], Enter(n));
    }
  }

  lemma ArriveKeepsReactions(s: State, repo: string)
    requires Inv(s)
    ensures var s' := Arrive(s, repo); ReactionsAreSound(s'.reactions, s'.merges, s'.settled, s'.ran)
  {
    hide QueueIsSound, NothingLost, Waits, Ordered, LogIsPast, CommandsInOrder, LocksMatch, PromisesMatch;
    NewcomerIsNew(s);
    var s' := Arrive(s, repo);
    if repo in s.locks {
      HeldLockIsFree(s, repo);
    }
    forall p <- s'.reactions
      ensures p !in s'.settled && ReactionIsSound(p, s'.reactions[p], s'.merges, s'.ran)
    {
      assert p in s.reactions ==> ReactionIsSound(p, s.reactions[p], s.merges, s.ran);
    }
  }

  lemma ArriveKeepsJobs(s: State, repo: string)
    requires Inv(s)
    ensures NothingLost(Arrive(s, repo))
  {
    hide QueueIsSound, Waits, Ordered, LogIsPast, CommandsInOrder, LocksMatch, PromisesMatch, ReactionsAreSound;
    NewcomerIsNew(s);
    var s' := Arrive(s, repo);
    if repo in s.locks {
      HeldLockIsFree(s, repo);
    }
    forall k | 0 <= k < |s'.merges|
      ensures NothingLostOf(k, s'.merges[k].previous, s'.reactions, s'.queue, s'.settled, s'.ran)
    {
      if k < |s.merges| {
        assert NothingLostOf(k, s.merges[k].previous, s.reactions, s.queue, s.settled, s.ran);
        OldPreviousIsOld(s, k);
      }
    }
  }

  lemma OldPreviousIsOld(s: State, k: nat)
    requires Inv(s) && k < |s.merges|
    ensures s.merges[k].previous.m < |s.merges|
  {
    assert PreviousIsRight(s.merges, s.settled, k);
  }

  lemma ArriveKeepsInv(s: State, repo: string)
    requires Inv(s)
    ensures Inv(Step(s, Arrival(repo)))
  {
    hide Arrive, Waits, Ordered, PromisesMatch, LocksMatch, QueueIsSound, ReactionsAreSound, NothingLost, LogIsPast, CommandsInOrder;
    ArriveKeepsMerges(s, repo);
    ArriveKeepsLocks(s, repo);
    ArriveKeepsPromises(s, repo);
    ArriveKeepsQueue(s, repo);
    ArriveKeepsReactions(s, repo);
    ArriveKeepsJobs(s, repo);
  }

  // ----- A merge that holds the lock runs a repository command -----

  lemma CommandKeepsInv(s: State, m: nat)
    requires Inv(s) && Enabled(s, Command(m))
    ensures Inv(Step(s, Command(m)))
  {
    hide Waits, PromisesMatch, LocksMatch, QueueIsSound, ReactionsAreSound;
    var s' := Step(s, Command(m));
    assert NothingLost(s');
    forall i | 0 <= i < |s.log|
      ensures s.log[i] < |s.merges| && (s.merges[s.log[i]].repo == s.merges[m].repo ==> s.log[i] <= m)
    {
      assert s.log[i] in s.log;
    }
  }

  // ----- Every reachable state -----

  lemma StepKeepsInv(s: State, e: Event)
    requires Inv(s) && Enabled(s, e)
    ensures Inv(Step(s, e))
  {
    hide Inv, Step;
    match e {
      case Arrival(repo) => ArriveKeepsInv(s, repo);
      case Command(m) => CommandKeepsInv(s, m);
      case Completion(m) => FinishKeepsInv(s, m);
      case Microtask =>
        match s.queue[0] {
          case Install(m) => InstallKeepsInv(s, m);
          case Enter(m) => EnterKeepsInv(s, m);
          case Adopt(m) => AdoptKeepsInv(s, m);
          case Settle(m) => SettleKeepsInv(s, m);
        }
    }
  }

  lemma {:induction false} ReachableInv(events: seq<Event>)
    ensures Run(events).Some? ==> Inv(Run(events).value)
  {
    hide Inv, Step;
    if events == [] {
      InitialInv();
    } else {
      var before := events[..|events| - 1];
      ReachableInv(before);
      if Run(before).Some? && Enabled(Run(before).value, events[|events| - 1]) {
        StepKeepsInv(Run(before).value, events[|events| - 1]);
      }
    }
  }

  lemma InitialInv()
    ensures Inv(INITIAL)
  {
  }

  // ----- Main results -----

  /**
   * Mutual exclusion, first come first served: after any run, of two merges on one repository the later
   * one is past its `await` only if the earlier one has finished. In particular at most one holds the lock.
   */
  lemma MutualExclusion(events: seq<Event>, a: nat, b: nat)
    requires Run(events).Some?
    requires var merges := Run(events).value.merges; a < b < |merges| && merges[a].repo == merges[b].repo
    ensures var merges := Run(events).value.merges; merges[b].phase.Waiting? || merges[a].phase.Finished?
  {
    ReachableInv(events);
  }

  /**
   * The repository commands of one repository never interleave: they come in whole blocks, one merge
   * after another, in the order the merges arrived.
   */
  lemma CommandsNeverInterleave(events: seq<Event>)
    requires Run(events).Some?
    ensures var s := Run(events).value;
            forall i, k | 0 <= i < k < |s.log| ::
              && s.log[i] < |s.merges| && s.log[k] < |s.merges|
              && (s.merges[s.log[i]].repo == s.merges[s.log[k]].repo ==> s.log[i] <= s.log[k])
  {
    ReachableInv(events);
    var s := Run(events).value;
    assert forall i | 0 <= i < |s.log| :: s.log[i] in s.log;
  }

  /** `finally` never calls the placeholder: whoever is past the `await` has the real resolver. */
  lemma ReleaseIsInstalled(events: seq<Event>, m: nat)
    requires Run(events).Some? && m < |Run(events).value.merges|
    ensures var merge := Run(events).value.merges[m]; !merge.phase.Waiting? ==> merge.release.Resolver?
  {
    ReachableInv(events);
    var s := Run(events).value;
    assert MergeMatches(s.merges[m], m, s.settled, s.ran);
  }

  /** The map has an entry for a repository exactly while a merge on it is unfinished: the latest arrival. */
  lemma LockMapIsExact(events: seq<Event>, repo: string)
    requires Run(events).Some?
    ensures var s := Run(events).value;
            && (repo in s.locks <==> exists m | 0 <= m < |s.merges| :: s.merges[m].repo == repo && !s.merges[m].phase.Finished?)
            && (repo in s.locks ==> IsLatest(s.merges, repo, s.locks[repo]))
  {
    ReachableInv(events);
    var s := Run(events).value;
    if repo in s.locks {
      assert IsLatest(s.merges, repo, s.locks[repo]);
    }
  }

  /**
   * No release is lost: once the microtask queue is empty, every repository with unfinished merges has
   * one that holds the lock - the earliest of them.
   */
  lemma NobodyWaitsForever(events: seq<Event>, m: nat)
    requires Run(events).Some? && Run(events).value.queue == []
    requires m < |Run(events).value.merges| && !Run(events).value.merges[m].phase.Finished?
    requires var merges := Run(events).value.merges;
             forall a | 0 <= a < m :: merges[a].repo == merges[m].repo ==> merges[a].phase.Finished?
    ensures Run(events).value.merges[m].phase.Critical?
  {
    ReachableInv(events);
    EarliestIsCritical(Run(events).value, m);
  }

  lemma EarliestIsCritical(s: State, m: nat)
    requires Inv(s) && s.queue == [] && m < |s.merges| && !s.merges[m].phase.Finished?
    requires forall a | 0 <= a < m :: s.merges[a].repo == s.merges[m].repo ==> s.merges[a].phase.Finished?
    ensures s.merges[m].phase.Critical?
  {
    hide LocksMatch, ReactionsAreSound, LogIsPast, CommandsInOrder, Ordered;
    assert PreviousIsRight(s.merges, s.settled, m);
    assert MergeMatches(s.merges[m], m, s.settled, s.ran);
    assert NothingLostOf(m, s.merges[m].previous, s.reactions, s.queue, s.settled, s.ran);
    if s.merges[m].previous.Lock? {
      var p := s.merges[m].previous.m;
      assert MergeMatches(s.merges[p], p, s.settled, s.ran);
      assert NothingLostOf(p, s.merges[p].previous, s.reactions, s.queue, s.settled, s.ran);
    }
  }

  function JobsOf(m: nat): set<Job> {
    {Install(m), Enter(m), Adopt(m), Settle(m)}
  }

  lemma FourJobs(m: nat)
    ensures |JobsOf(m)| == 4
    ensures forall j: Job :: j.m == m ==> j in JobsOf(m)
  {
    forall j: Job | j.m == m
      ensures j in JobsOf(m)
    {
      match j {
        case Install(_) =>
        case Enter(_) =>
        case Adopt(_) =>
        case Settle(_) =>
      }
    }
  }

  lemma SetParts(jobs: set<Job>, part: set<Job>)
    ensures |jobs| <= |jobs - part| + |part|
  {
    assert jobs == (jobs - part) + (jobs * part);
    assert part == (part - jobs) + (jobs * part);
  }

  /** There are four jobs per merge. */
  lemma {:induction false} FourJobsEach(jobs: set<Job>, n: nat)
    requires forall j <- jobs :: j.m < n
    ensures |jobs| <= 4 * n
  {
    hide JobsOf;
    if n == 0 {
      assert jobs == {};
    } else {
      FourJobs(n - 1);
      SetParts(jobs, JobsOf(n - 1));
      FourJobsEach(jobs - JobsOf(n - 1), n - 1);
    }
  }

  function MicrotaskCount(events: seq<Event>): nat {
    if events == [] then 0
    else MicrotaskCount(events[..|events| - 1]) + (if events[|events| - 1].Microtask? then 1 else 0)
  }

  lemma {:induction false} EveryMicrotaskIsNew(events: seq<Event>)
    requires Run(events).Some?
    ensures MicrotaskCount(events) == |Run(events).value.ran|
  {
    hide Inv, Step;
    if events != [] {
      var before := events[..|events| - 1];
      EveryMicrotaskIsNew(before);
      var s, e := Run(before).value, events[|events| - 1];
      if e.Microtask? {
        ReachableInv(before);
        QueuedIsNew(s);
      }
      RanAfter(s, e);
    }
  }

  lemma RanAfter(s: State, e: Event)
    requires Enabled(s, e)
    ensures Step(s, e).ran == if e.Microtask? then s.ran + {s.queue[0]} else s.ran
  {
  }

  lemma QueuedIsNew(s: State)
    requires Inv(s) && s.queue != []
    ensures s.queue[0] !in s.ran
  {
    assert s.queue[0] in s.queue;
  }

  /** The queue always drains: a run has at most four microtasks per merge, whatever else it does. */
  lemma MicrotasksAreBounded(events: seq<Event>)
    requires Run(events).Some?
    ensures MicrotaskCount(events) <= 4 * |Run(events).value.merges|
  {
    ReachableInv(events);
    EveryMicrotaskIsNew(events);
    var s := Run(events).value;
    FourJobsEach(s.ran, |s.merges|);
  }
}
