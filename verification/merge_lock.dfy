/**
 * The promise-chain lock that `WorktreeManager.merge` takes per repository.
 *
 * Nothing here is atomic but a single job: the state is that of the JavaScript promises and their
 * microtask queue, and a step is the arrival of a merge, one microtask, one repository command of a
 * merge that holds the lock, or the `finally` block of a merge. Commands and completions may fall
 * anywhere between microtasks, which is more freedom than the event loop has.
 */
module MergeLock {
  import opened Common

  /** Merge `m` is the one that arrived `m`-th. */
  datatype Promise =
    | Immediate(m: nat)  // the `Promise.resolve()` that `m` starts from when no lock is held
    | Lock(m: nat)       // `currentLock` of `m`
    | Inner(m: nat)      // the promise whose resolver is `releaseLock` of `m`

  datatype Job =
    | Install(m: nat)    // the callback of `previousLock.then`: makes `Inner(m)` and sets `releaseLock`
    | Enter(m: nat)      // the rest of `merge`, resumed after `await previousLock`
    | Adopt(m: nat)      // subscribes `Lock(m)` to `Inner(m)`, since the callback returned a promise
    | Settle(m: nat)     // resolves `Lock(m)` because `Inner(m)` was resolved

  datatype Phase = Waiting | Critical | Finished

  datatype Release = Noop | Resolver

  datatype Merge = Merge(repo: string, previous: Promise, phase: Phase, release: Release)

  datatype State = State(
    merges: seq<Merge>,
    locks: map<string, nat>,
    settled: set<Promise>,
    reactions: map<Promise, seq<Job>>,
    queue: seq<Job>,
    log: seq<nat>,
    ran: set<Job>)

  const INITIAL := State([], map[], {}, map[], [], [], {})

  /** `promise.then(job)` and `await promise` alike: queue at once if resolved, subscribe otherwise. */
  function Then(s: State, p: Promise, job: Job): State {
    if p in s.settled then s.(queue := s.queue + [job])
    else s.(reactions := s.reactions[p := (if p in s.reactions then s.reactions[p] else []) + [job]])
  }

  function Resolve(s: State, p: Promise): State {
    if p in s.settled then s
    else
      s.(settled := s.settled + {p},
         queue := s.queue + (if p in s.reactions then s.reactions[p] else []),
         reactions := s.reactions - {p})
  }

  /** The synchronous part of `merge`, up to its `await`. */
  function Arrive(s: State, repo: string): State {
    var m := |s.merges|;
    var previous := if repo in s.locks then Lock(s.locks[repo]) else Immediate(m);
    var resolved := if repo in s.locks then s else s.(settled := s.settled + {previous});
    var subscribed := Then(resolved.(merges := s.merges + [Merge(repo, previous, Waiting, Noop)]), previous, Install(m));
    Then(subscribed.(locks := s.locks[repo := m]), previous, Enter(m))
  }

  function RunJob(s: State, job: Job): State
    requires job.m < |s.merges|
  {
    match job
    case Install(m) => s.(merges := s.merges[m := s.merges[m].(release := Resolver)], queue := s.queue + [Adopt(m)])
    case Adopt(m) => Then(s, Inner(m), Settle(m))
    case Settle(m) => Resolve(s, Lock(m))
    case Enter(m) => s.(merges := s.merges[m := s.merges[m].(phase := Critical)])
  }

  /** The `finally` block: release first, then forget the lock if it is still the latest. */
  function Finish(s: State, m: nat): State
    requires m < |s.merges|
  {
    var merge := s.merges[m];
    var released := if merge.release.Resolver? then Resolve(s, Inner(m)) else s;
    var cleared :=
      if merge.repo in s.locks && s.locks[merge.repo] == m then released.(locks := s.locks - {merge.repo}) else released;
    cleared.(merges := s.merges[m := merge.(phase := Finished)])
  }

  datatype Event = Arrival(repo: string) | Microtask | Command(m: nat) | Completion(m: nat)

  /** A microtask needs a queued job; commands and completions come from a merge that is past its `await`. */
  predicate Enabled(s: State, e: Event) {
    match e
    case Arrival(_) => true
    case Microtask => s.queue != [] && s.queue[0].m < |s.merges|
    case Command(m) => m < |s.merges| && s.merges[m].phase.Critical?
    case Completion(m) => m < |s.merges| && s.merges[m].phase.Critical?
  }

  function Step(s: State, e: Event): State
    requires Enabled(s, e)
  {
    match e
    case Arrival(repo) => Arrive(s, repo)
    case Microtask => RunJob(s.(queue := s.queue[1..], ran := s.ran + {s.queue[0]}), s.queue[0])
    case Command(m) => s.(log := s.log + [m])
    case Completion(m) => Finish(s, m)
  }

  /**
   * The same steps on state updated in place: the module-level map of locks, each merge's captured
   * `releaseLock`, and the promises and queue of the event loop they run on.
   */
  class EventLoop {
    var merges: seq<Merge>
    var locks: map<string, nat>
    var settled: set<Promise>
    var reactions: map<Promise, seq<Job>>
    var queue: seq<Job>
    var log: seq<nat>
    var ran: set<Job>

    function View(): State
      reads this
    {
      State(merges, locks, settled, reactions, queue, log, ran)
    }

    constructor ()
      ensures View() == INITIAL
    {
      merges, locks, settled, reactions, queue, log, ran := [], map[], {}, map[], [], [], {};
    }

    method Subscribe(p: Promise, job: Job)
      modifies this
      ensures View() == Then(old(View()), p, job)
    {
      if p in settled {
        queue := queue + [job];
      } else {
        reactions := reactions[p := (if p in reactions then reactions[p] else []) + [job]];
      }
    }

    method Fulfil(p: Promise)
      modifies this
      ensures View() == Resolve(old(View()), p)
    {
      if p !in settled {
        settled := settled + {p};
        queue := queue + (if p in reactions then reactions[p] else []);
        reactions := reactions - {p};
      }
    }

    /** A call of `merge`, up to its `await`. */
    method BeginMerge(repo: string)
      modifies this
      ensures View() == Arrive(old(View()), repo)
    {
      var m := |merges|;
      var previous := if repo in locks then Lock(locks[repo]) else Immediate(m);
      if repo !in locks {
        settled := settled + {previous};
      }
      merges := merges + [Merge(repo, previous, Waiting, Noop)];
      Subscribe(previous, Install(m));
      locks := locks[repo := m];
      Subscribe(previous, Enter(m));
    }

    method RunMicrotask()
      requires Enabled(View(), Microtask)
      modifies this
      ensures View() == Step(old(View()), Microtask)
    {
      var job := queue[0];
      queue, ran := queue[1..], ran + {job};
      match job {
        case Install(m) =>
          merges := merges[m := merges[m].(release := Resolver)];
          queue := queue + [Adopt(m)];
        case Adopt(m) => Subscribe(Inner(m), Settle(m));
        case Settle(m) => Fulfil(Lock(m));
        case Enter(m) => merges := merges[m := merges[m].(phase := Critical)];
      }
    }

    /** A repository command of a merge that is past its `await`. */
    method RunCommand(m: nat)
      requires Enabled(View(), Command(m))
      modifies this
      ensures View() == Step(old(View()), Command(m))
    {
      log := log + [m];
    }

    /** The `finally` block. */
    method EndMerge(m: nat)
      requires Enabled(View(), Completion(m))
      modifies this
      ensures View() == Step(old(View()), Completion(m))
    {
      var merge := merges[m];
      if merge.release.Resolver? {
        Fulfil(Inner(m));
      }
      if merge.repo in locks && locks[merge.repo] == m {
        locks := locks - {merge.repo};
      }
      merges := merges[m := merge.(phase := Finished)];
    }
  }

  /** The state after these events, if each of them was enabled when it came. */
  function Run(events: seq<Event>): Option<State> {
    if events == [] then Some(INITIAL)
    else
      match Run(events[..|events| - 1])
      case None => None
      case Some(before) =>
        var e := events[|events| - 1];
        if Enabled(before, e) then Some(Step(before, e)) else None
  }

  // ----- What every reachable state satisfies -----

  /** A merge waits for the one that came just before it, unless all before it are already finished. */
  ghost predicate PreviousIsRight(merges: seq<Merge>, settled: set<Promise>, m: nat)
    requires m < |merges|
  {
    match merges[m].previous
    case Immediate(k) =>
      && k == m && Immediate(m) in settled
      && forall a | 0 <= a < m :: merges[a].repo == merges[m].repo ==> merges[a].phase.Finished?
    case Lock(p) =>
      && p < m && merges[p].repo == merges[m].repo
      && forall a | p < a < m :: merges[a].repo != merges[m].repo
    case Inner(_) => false
  }

  ghost predicate Waits(merges: seq<Merge>, settled: set<Promise>) {
    forall m | 0 <= m < |merges| :: PreviousIsRight(merges, settled, m)
  }

  /** Nothing gets past its `await` before everything of its repository that came earlier is finished. */
  ghost predicate Ordered(merges: seq<Merge>) {
    forall a, b | 0 <= a < b < |merges| ::
      merges[a].repo == merges[b].repo && !merges[b].phase.Waiting? ==> merges[a].phase.Finished?
  }

  /** Which promises are resolved and which jobs have run is told by the merges. */
  ghost predicate MergeMatches(merge: Merge, m: nat, settled: set<Promise>, ran: set<Job>) {
    && (Inner(m) in settled <==> merge.phase.Finished?)
    && (Lock(m) in settled <==> Settle(m) in ran)
    && (merge.release.Resolver? <==> Install(m) in ran)
    && (!merge.phase.Waiting? <==> Enter(m) in ran)
    && (Install(m) in ran ==> merge.previous in settled)
    && (Enter(m) in ran ==> Install(m) in ran)
    && (Adopt(m) in ran ==> Install(m) in ran)
    && (Settle(m) in ran ==> Adopt(m) in ran && Inner(m) in settled)
  }

  ghost predicate PromisesMatch(merges: seq<Merge>, settled: set<Promise>, ran: set<Job>) {
    && (forall m | 0 <= m < |merges| :: MergeMatches(merges[m], m, settled, ran))
    && (forall p <- settled :: p.m < |merges|)
    && (forall j <- ran :: j.m < |merges|)
  }

  /** The map holds, for a repository with unfinished merges, the latest arrival, and nothing otherwise. */
  ghost predicate LocksMatch(merges: seq<Merge>, locks: map<string, nat>) {
    && (forall repo <- locks :: IsLatest(merges, repo, locks[repo]) && !merges[locks[repo]].phase.Finished?)
    && (forall a | 0 <= a < |merges| :: !merges[a].phase.Finished? ==> merges[a].repo in locks)
  }

  ghost predicate IsLatest(merges: seq<Merge>, repo: string, m: nat) {
    && m < |merges| && merges[m].repo == repo
    && forall a | m < a < |merges| :: merges[a].repo != repo
  }

  ghost predicate MayRun(j: Job, merges: seq<Merge>, settled: set<Promise>, ran: set<Job>) {
    && j.m < |merges| && j !in ran
    && match j
       case Install(m) => merges[m].previous in settled
       case Enter(m) => merges[m].previous in settled
       case Adopt(m) => Install(m) in ran
       case Settle(m) => Adopt(m) in ran && Inner(m) in settled
  }

  /** No job is queued twice, and a resolver is installed before its merge resumes. */
  ghost predicate WellQueued(queue: seq<Job>) {
    && (forall i, k | 0 <= i < k < |queue| :: queue[i] != queue[k])
    && (forall i, k | 0 <= i < |queue| && 0 <= k < |queue| ::
          queue[i].Install? && queue[k] == Enter(queue[i].m) ==> i < k)
  }

  ghost predicate QueueIsSound(queue: seq<Job>, merges: seq<Merge>, settled: set<Promise>, ran: set<Job>) {
    WellQueued(queue) && forall j <- queue :: MayRun(j, merges, settled, ran)
  }

  ghost predicate ReactionIsSound(p: Promise, jobs: seq<Job>, merges: seq<Merge>, ran: set<Job>) {
    && p.m < |merges|
    && match p
       case Immediate(_) => false
       case Lock(_) =>
         |jobs| == 2 && jobs[0].m < |merges| && merges[jobs[0].m].previous == p
         && jobs == [Install(jobs[0].m), Enter(jobs[0].m)]
       case Inner(m) => jobs == [Settle(m)] && Adopt(m) in ran
  }

  ghost predicate ReactionsAreSound(
      reactions: map<Promise, seq<Job>>, merges: seq<Merge>, settled: set<Promise>, ran: set<Job>)
  {
    forall p <- reactions :: p !in settled && ReactionIsSound(p, reactions[p], merges, ran)
  }

  ghost predicate Due(j: Job, queue: seq<Job>, ran: set<Job>) {
    j in queue || j in ran
  }

  ghost predicate Subscribed(reactions: map<Promise, seq<Job>>, p: Promise, jobs: seq<Job>) {
    p in reactions && reactions[p] == jobs
  }

  /** Each job a merge needs has run, is queued, or is subscribed to a promise that is still open. */
  ghost predicate NothingLostOf(
      m: nat, previous: Promise, reactions: map<Promise, seq<Job>>, queue: seq<Job>, settled: set<Promise>, ran: set<Job>)
  {
    && (if previous in settled then Due(Install(m), queue, ran) && Due(Enter(m), queue, ran)
        else Subscribed(reactions, previous, [Install(m), Enter(m)]))
    && (Install(m) in ran ==> Due(Adopt(m), queue, ran))
    && (Adopt(m) in ran ==>
          if Inner(m) in settled then Due(Settle(m), queue, ran) else Subscribed(reactions, Inner(m), [Settle(m)]))
  }

  ghost predicate NothingLost(s: State) {
    forall m | 0 <= m < |s.merges| ::
      NothingLostOf(m, s.merges[m].previous, s.reactions, s.queue, s.settled, s.ran)
  }

  ghost predicate LogIsPast(s: State) {
    forall m <- s.log :: m < |s.merges| && !s.merges[m].phase.Waiting?
  }

  ghost predicate Inv(s: State) {
    && Waits(s.merges, s.settled)
    && Ordered(s.merges)
    && PromisesMatch(s.merges, s.settled, s.ran)
    && LocksMatch(s.merges, s.locks)
    && QueueIsSound(s.queue, s.merges, s.settled, s.ran)
    && ReactionsAreSound(s.reactions, s.merges, s.settled, s.ran)
    && NothingLost(s)
    && LogIsPast(s)
    && CommandsInOrder(s)
  }

  /** The commands of one repository come in whole blocks, one merge after another, in arrival order. */
  ghost predicate CommandsInOrder(s: State) {
    forall i, k | 0 <= i < k < |s.log| ::
      s.log[i] < |s.merges| && s.log[k] < |s.merges| && s.merges[s.log[i]].repo == s.merges[s.log[k]].repo ==>
        s.log[i] <= s.log[k]
  }
}
