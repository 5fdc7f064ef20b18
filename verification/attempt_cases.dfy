/** Which attempt gets which status and cause, and what each number of a summary counts. */
module AttemptCases {
  import opened Common
  import opened Sequences
  import opened Grader
  import opened GraderCases
  import opened Attempts

  // ----- One attempt -----

  /** The `k`-th execution is the first that did not end by itself. */
  ghost predicate FirstFailure(captures: seq<Capture>, k: nat) {
    k < |captures| && !captures[k].Exited? && forall i | 0 <= i < k :: captures[i].Exited?
  }

  predicate AllEnded(captures: seq<Capture>) {
    forall i | 0 <= i < |captures| :: captures[i].Exited?
  }

  /** The runs are the outputs of the executions before the first failure, and the failure is that one's. */
  lemma {:induction false} ExecutedExactly(captures: seq<Capture>) returns (k: nat)
    ensures k <= |captures| && (if k == |captures| then AllEnded(captures) else FirstFailure(captures, k))
    ensures var (runs, failure) := Executed(captures);
            && |runs| == k && (forall i | 0 <= i < k :: captures[i] == Exited(runs[i]))
            && failure == (if k == |captures| then None
                           else if captures[k].TimedOut? then Some(Timeout) else Some(SpawnError))
  {
    if captures == [] {
      k := 0;
    } else {
      var n := |captures| - 1;
      k := ExecutedExactly(captures[..n]);
      assert forall i | 0 <= i < n :: captures[..n][i] == captures[i];
      if k == n && captures[n].Exited? {
        k := n + 1;
      }
    }
  }

  /** The agent ran in its isolation and was launched. */
  predicate WasLaunched(agent: Agent) {
    agent.Command? ==> agent.isolation != Some(false) && agent.execution != Some(false)
  }

  /** Nothing kept the agent from submitting. */
  predicate WasFree(agent: Agent) {
    WasLaunched(agent) && (agent.Command? ==> !agent.timedOut && !agent.spawnFailed)
  }

  /** Each status, exactly. */
  lemma StatusExactly(input: Input)
    ensures var a, v := AttemptOf(input), input.validation;
            && (a.status.IntegrityError? <==> v == Unusable(true))
            && (a.status.InvalidSubmission? <==> v == Unusable(false) && WasFree(input.agent))
            && (a.status.CompletedAttempt? <==> v.Usable? && input.captures != [] && AllEnded(input.captures))
            && (a.status.InfrastructureError? <==>
                  || (v == Unusable(false) && !WasFree(input.agent))
                  || (v.Usable? && !(input.captures != [] && AllEnded(input.captures))))
            && a.condition == input.condition && (a.grade.Some? <==> v.Usable?)
  {
    var k := ExecutedExactly(input.captures);
    var (runs, failure) := Executed(input.captures);
    StagesExactly(input.contract, failure.None?, runs, input.discriminating);
    VerdictsExactly(input.contract, failure.None?, runs, input.discriminating);
    hide Executed, GradeOf;
    FailureIsNotEnd(input.captures, k);
  }

  lemma FailureIsNotEnd(captures: seq<Capture>, k: nat)
    requires k < |captures| ==> FirstFailure(captures, k)
    ensures k < |captures| ==> !AllEnded(captures)
  {
  }

  /** The first execution that did not end by itself was killed at its limit. */
  ghost predicate RanTooLong(captures: seq<Capture>) {
    exists k: nat :: FirstFailure(captures, k) && captures[k].TimedOut?
  }

  lemma FirstFailureIsOne(captures: seq<Capture>, k: nat)
    requires if k == |captures| then AllEnded(captures) else FirstFailure(captures, k)
    ensures RanTooLong(captures) <==> k < |captures| && captures[k].TimedOut?
  {
    forall l: nat | FirstFailure(captures, l)
      ensures l == k
    {
    }
  }

  /** Each cause, exactly. */
  lemma CauseExactly(input: Input)
    ensures var cause, v, agent := AttemptOf(input).cause, input.validation, input.agent;
            var completed := v.Usable? && input.captures != [] && AllEnded(input.captures);
            && (cause.IsolationOrIntegrity? <==>
                  v == Unusable(true) || (v == Unusable(false) && agent.Command? && agent.isolation == Some(false)))
            && (cause.AgentResourceLimit? <==>
                  || (v == Unusable(false) && agent.Command? && WasLaunched(agent) && agent.timedOut)
                  || (v.Usable? && RanTooLong(input.captures)))
            && (cause.InfrastructureCause? <==>
                  || (v == Unusable(false) && agent.Command? && agent.isolation != Some(false)
                      && (agent.execution == Some(false) || (agent.spawnFailed && !agent.timedOut)))
                  || (v.Usable? && !completed && !RanTooLong(input.captures)))
            && (cause.AgentInvalidSubmission? <==> v == Unusable(false) && WasFree(agent))
            && (cause.CompletedCapabilityMiss? <==> completed && !cause.CompletedSuccess?)
            && cause !in {AgentBudgetExhausted, ExternalBlock, HarnessOrEvaluator, Unknown}
  {
    var k := ExecutedExactly(input.captures);
    FirstFailureIsOne(input.captures, k);
    FailureIsNotEnd(input.captures, k);
    var (runs, failure) := Executed(input.captures);
    StagesExactly(input.contract, failure.None?, runs, input.discriminating);
    VerdictsExactly(input.contract, failure.None?, runs, input.discriminating);
    hide Executed, GradeOf, FirstFailure, RanTooLong;
  }

  // ----- What a summary counts -----

  /** The places of the attempts that are counted. */
  ghost function Places(attempts: seq<Attempt>, p: Attempt -> bool): set<nat> {
    set i: nat | i < |attempts| && p(attempts[i])
  }

  lemma {:induction false} FilterCounts(attempts: seq<Attempt>, p: Attempt -> bool)
    ensures |Filter(attempts, p)| == |Places(attempts, p)|
  {
    if attempts == [] {
      assert Places(attempts, p) == {};
    } else {
      var n := |attempts| - 1;
      FilterCounts(attempts[..n], p);
      assert forall i: nat | i < n :: attempts[..n][i] == attempts[i];
      var before := Places(attempts[..n], p);
      assert n !in before;
      assert Places(attempts, p) == before + (if p(attempts[n]) then {n} else {});
    }
  }

  lemma {:induction false} FilterTwice(attempts: seq<Attempt>, p: Attempt -> bool, q: Attempt -> bool, both: Attempt -> bool)
    requires forall a :: both(a) <==> p(a) && q(a)
    ensures Filter(Filter(attempts, p), q) == Filter(attempts, both)
  {
    if attempts != [] {
      var n := |attempts| - 1;
      FilterTwice(attempts[..n], p, q, both);
      var kept := Filter(attempts[..n], p);
      if p(attempts[n]) {
        assert (kept + [attempts[n]])[..|kept|] == kept;
      } else {
        assert kept + [] == kept;
        assert Filter(attempts[..n], both) + [] == Filter(attempts[..n], both);
      }
    }
  }

  lemma CountTwice(attempts: seq<Attempt>, p: Attempt -> bool, q: Attempt -> bool, both: Attempt -> bool)
    requires forall a :: both(a) <==> p(a) && q(a)
    ensures Count(Filter(attempts, p), q) == |Places(attempts, both)|
  {
    FilterTwice(attempts, p, q, both);
    FilterCounts(attempts, both);
  }

  function FailsAt(stage: Stage): Attempt -> bool {
    (a: Attempt) => a.grade.Some? && a.grade.value.failureStage == Some(stage)
  }

  lemma {:induction false} StageCountsCount(completed: seq<Attempt>, stage: Stage)
    ensures At(StageCounts(completed), stage) == Count(completed, FailsAt(stage))
  {
    if completed != [] {
      StageCountsCount(completed[..|completed| - 1], stage);
    }
  }

  ghost function OfCondition(attempts: seq<Attempt>, c: nat): set<nat> {
    set i: nat | i < |attempts| && attempts[i].condition == c
  }

  ghost function OfStatus(attempts: seq<Attempt>, c: nat, status: Status): set<nat> {
    set i: nat | i < |attempts| && attempts[i].condition == c && attempts[i].status == status
  }

  ghost function OfCause(attempts: seq<Attempt>, c: nat, cause: Cause): set<nat> {
    set i: nat | i < |attempts| && attempts[i].condition == c && attempts[i].cause == cause
  }

  ghost function GradedLegible(attempts: seq<Attempt>, c: nat): set<nat> {
    set i: nat | i < |attempts| && attempts[i].condition == c && attempts[i].status == CompletedAttempt
                 && attempts[i].grade.Some? && attempts[i].grade.value.result == GraderLegible
  }

  ghost function FailedAt(attempts: seq<Attempt>, c: nat, stage: Stage): set<nat> {
    set i: nat | i < |attempts| && attempts[i].condition == c && attempts[i].status == CompletedAttempt
                 && attempts[i].grade.Some? && attempts[i].grade.value.failureStage == Some(stage)
  }

  lemma CountsOfStatus(attempts: seq<Attempt>, c: nat, status: Status)
    ensures Count(Filter(attempts, IsOf(c)), HasStatus(status)) == |OfStatus(attempts, c, status)|
  {
    var both := (a: Attempt) => a.condition == c && a.status == status;
    CountTwice(attempts, IsOf(c), HasStatus(status), both);
    assert Places(attempts, both) == OfStatus(attempts, c, status);
  }

  lemma CountsOfCause(attempts: seq<Attempt>, c: nat, cause: Cause)
    ensures CauseCount(Filter(attempts, IsOf(c)), cause) == |OfCause(attempts, c, cause)|
  {
    var both := (a: Attempt) => a.condition == c && a.cause == cause;
    CountTwice(attempts, IsOf(c), HasCause(cause), both);
    assert Places(attempts, both) == OfCause(attempts, c, cause);
  }

  /** The completed attempts of a condition that meet `p`. */
  lemma CountsOfCompleted(attempts: seq<Attempt>, c: nat, p: Attempt -> bool, all: Attempt -> bool)
    requires forall a :: all(a) <==> a.condition == c && a.status == CompletedAttempt && p(a)
    ensures Count(Filter(Filter(attempts, IsOf(c)), IsCompleted), p) == |Places(attempts, all)|
  {
    var completed := (a: Attempt) => a.condition == c && a.status == CompletedAttempt;
    FilterTwice(attempts, IsOf(c), IsCompleted, completed);
    CountTwice(attempts, completed, p, all);
  }

  /** Every number of a condition's summary is the number of attempts it is named after, and of no others. */
  lemma SummaryCounts(c: nat, attempts: seq<Attempt>, cause: Cause, stage: Stage)
    ensures var s := Summarize(c, attempts);
            && s.attempts == |OfCondition(attempts, c)|
            && s.completed == |OfStatus(attempts, c, CompletedAttempt)|
            && s.graderLegible == |GradedLegible(attempts, c)|
            && s.invalidSubmission == |OfStatus(attempts, c, InvalidSubmission)|
            && s.integrityError == |OfStatus(attempts, c, IntegrityError)|
            && s.infrastructureError == |OfStatus(attempts, c, InfrastructureError)|
            && cause in s.causeCounts && s.causeCounts[cause] == |OfCause(attempts, c, cause)|
            && At(s.failureStages, stage) == |FailedAt(attempts, c, stage)|
  {
    AllCounted(attempts, c);
    CompletedCounted(attempts, c);
    CountsOfStatus(attempts, c, InvalidSubmission);
    CountsOfStatus(attempts, c, IntegrityError);
    CountsOfStatus(attempts, c, InfrastructureError);
    CountsOfCause(attempts, c, cause);
    EachCauseOnce(cause);
    LegibleCounted(attempts, c);
    StageCounted(attempts, c, stage);
    hide Filter, StageCounts, At, Count, CauseCount, OfCondition, OfStatus, OfCause, GradedLegible, FailedAt;
  }

  lemma AllCounted(attempts: seq<Attempt>, c: nat)
    ensures |Filter(attempts, IsOf(c))| == |OfCondition(attempts, c)|
  {
    FilterCounts(attempts, IsOf(c));
    assert Places(attempts, IsOf(c)) == OfCondition(attempts, c);
  }

  lemma CompletedCounted(attempts: seq<Attempt>, c: nat)
    ensures |Filter(Filter(attempts, IsOf(c)), IsCompleted)| == |OfStatus(attempts, c, CompletedAttempt)|
  {
    var completed := (a: Attempt) => a.condition == c && a.status == CompletedAttempt;
    CountTwice(attempts, IsOf(c), IsCompleted, completed);
    assert Places(attempts, completed) == OfStatus(attempts, c, CompletedAttempt);
  }

  lemma LegibleCounted(attempts: seq<Attempt>, c: nat)
    ensures Count(Filter(Filter(attempts, IsOf(c)), IsCompleted), IsLegible) == |GradedLegible(attempts, c)|
  {
    var all := (a: Attempt) =>
      a.condition == c && a.status == CompletedAttempt && a.grade.Some? && a.grade.value.result == GraderLegible;
    CountsOfCompleted(attempts, c, IsLegible, all);
    assert Places(attempts, all) == GradedLegible(attempts, c);
  }

  lemma StageCounted(attempts: seq<Attempt>, c: nat, stage: Stage)
    ensures At(StageCounts(Filter(Filter(attempts, IsOf(c)), IsCompleted)), stage) == |FailedAt(attempts, c, stage)|
  {
    var all := (a: Attempt) =>
      a.condition == c && a.status == CompletedAttempt && a.grade.Some? && a.grade.value.failureStage == Some(stage);
    StageCountsCount(Filter(Filter(attempts, IsOf(c)), IsCompleted), stage);
    CountsOfCompleted(attempts, c, FailsAt(stage), all);
    assert Places(attempts, all) == FailedAt(attempts, c, stage);
  }
}
