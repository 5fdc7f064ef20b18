/** One capability attempt, from captured executions to a status and a cause, and the summary over many. */
module Attempts {
  import opened Common
  import opened Sequences
  import opened Grader

  // ----- Executing a submission -----

  datatype Capture = SpawnFailed | TimedOut | Exited(observation: Observation)

  datatype ExecutionFailure = SpawnError | Timeout

  /** The runs captured before the first execution that did not end by itself, and what became of that one. */
  function Executed(captures: seq<Capture>): (seq<Observation>, Option<ExecutionFailure>) {
    if captures == [] then ([], None)
    else
      var (runs, failure) := Executed(captures[..|captures| - 1]);
      if failure.Some? then (runs, failure)
      else
        match captures[|captures| - 1]
        case SpawnFailed => (runs, Some(SpawnError))
        case TimedOut => (runs, Some(Timeout))
        case Exited(observation) => (runs + [observation], None)
  }

  /** Executions stop at the first that fails: the captures past it are never asked for. */
  method ExecuteSubmission(captures: seq<Capture>) returns (runs: seq<Observation>, failure: Option<ExecutionFailure>, used: nat)
    ensures (runs, failure) == Executed(captures)
    ensures used <= |captures| && (failure.None? ==> used == |captures|)
    ensures failure.Some? ==> used > 0 && !captures[used - 1].Exited?
    ensures forall i | 0 <= i < |runs| :: i < used && captures[i] == Exited(runs[i])
  {
    runs, failure := [], None;
    assert captures[..0] == [];
    for index := 0 to |captures|
      invariant (runs, None) == Executed(captures[..index])
      invariant |runs| == index
      invariant forall i | 0 <= i < index :: captures[i] == Exited(runs[i])
    {
      assert captures[..index + 1][..index] == captures[..index];
      match captures[index] {
        case SpawnFailed =>
          FailureIsFinal(captures, index + 1);
          return runs, Some(SpawnError), index + 1;
        case TimedOut =>
          FailureIsFinal(captures, index + 1);
          return runs, Some(Timeout), index + 1;
        case Exited(observation) => runs := runs + [observation];
      }
    }
    assert captures[..|captures|] == captures;
    return runs, None, |captures|;
  }

  lemma {:induction false} FailureIsFinal(captures: seq<Capture>, k: nat)
    requires k <= |captures| && Executed(captures[..k]).1.Some?
    ensures Executed(captures) == Executed(captures[..k])
  {
    if k == |captures| {
      assert captures[..k] == captures;
    } else {
      assert captures[..|captures| - 1][..k] == captures[..k];
      FailureIsFinal(captures[..|captures| - 1], k);
    }
  }

  lemma {:induction false} AllRunsWhenNoneFailed(captures: seq<Capture>)
    ensures Executed(captures).1.None? <==> forall c <- captures :: c.Exited?
    ensures Executed(captures).1.None? ==>
              |Executed(captures).0| == |captures|
              && forall i | 0 <= i < |captures| :: captures[i] == Exited(Executed(captures).0[i])
  {
    if captures != [] {
      var front, last := captures[..|captures| - 1], captures[|captures| - 1];
      AllRunsWhenNoneFailed(front);
      assert last in captures && forall c <- front :: c in captures;
      assert captures == front + [last];
    }
  }

  // ----- One attempt -----

  datatype Status = CompletedAttempt | InvalidSubmission | IntegrityError | InfrastructureError

  datatype Cause =
    | AgentBudgetExhausted | AgentInvalidSubmission | AgentResourceLimit | ExternalBlock | HarnessOrEvaluator
    | InfrastructureCause | IsolationOrIntegrity | Unknown | CompletedCapabilityMiss | CompletedSuccess

  const CAUSES: seq<Cause> := [
    AgentBudgetExhausted, AgentInvalidSubmission, AgentResourceLimit, ExternalBlock, HarnessOrEvaluator,
    InfrastructureCause, IsolationOrIntegrity, Unknown, CompletedCapabilityMiss, CompletedSuccess]

  /** What happened to the agent; isolation facts are absent where nothing was claimed about them. */
  datatype Agent =
    | Scripted
    | Command(isolation: Option<bool>, execution: Option<bool>, spawnFailed: bool, timedOut: bool)
  {
    predicate IsolationFailed() {
      Command? && isolation == Some(false)
    }

    predicate ExecutionFailed() {
      Command? && execution == Some(false)
    }

    predicate RanOut() {
      Command? && timedOut
    }

    predicate CouldNotStart() {
      Command? && spawnFailed
    }

    predicate HasDiagnostic() {
      IsolationFailed() || ExecutionFailed() || CouldNotStart() || RanOut()
    }
  }

  /** The check of what the agent left behind. */
  datatype Validation = Usable | Unusable(integrity: bool)

  datatype Input = Input(
    condition: nat, agent: Agent, validation: Validation, captures: seq<Capture>, discriminating: bool, contract: Contract)

  datatype Attempt = Attempt(condition: nat, status: Status, cause: Cause, grade: Option<Grade>)

  function GradeFor(input: Input): Grade {
    var (runs, failure) := Executed(input.captures);
    GradeOf(input.contract, failure.None?, runs, input.discriminating)
  }

  function AttemptOf(input: Input): Attempt {
    var agent := input.agent;
    match input.validation
    case Unusable(integrity) =>
      var status :=
        if integrity then IntegrityError
        else if agent.IsolationFailed() || agent.ExecutionFailed() || agent.HasDiagnostic() then InfrastructureError
        else InvalidSubmission;
      var cause :=
        if integrity then IsolationOrIntegrity
        else if agent.IsolationFailed() then IsolationOrIntegrity
        else if agent.ExecutionFailed() then InfrastructureCause
        else if agent.RanOut() then AgentResourceLimit
        else if agent.CouldNotStart() then InfrastructureCause
        else AgentInvalidSubmission;
      Attempt(input.condition, status, cause, None)
    case Usable =>
      var grade := GradeFor(input);
      var invalid := grade.result.InvalidExecution?;
      var cause :=
        if invalid then (if Executed(input.captures).1 == Some(Timeout) then AgentResourceLimit else InfrastructureCause)
        else if grade.result.GraderLegible? then CompletedSuccess
        else CompletedCapabilityMiss;
      Attempt(input.condition, if invalid then InfrastructureError else CompletedAttempt, cause, Some(grade))
  }

  /**
   * A success is earned: the cause is `completed_success` exactly when the submission was usable, every
   * execution ended by itself, there was at least one, all agree, and each of them meets the contract.
   */
  lemma SuccessExactly(input: Input)
    ensures AttemptOf(input).cause.CompletedSuccess? <==>
            && input.validation.Usable? && input.discriminating && input.captures != []
            && (forall c <- input.captures :: c.Exited?)
            && (forall c <- input.captures :: c == input.captures[0])
            && forall c <- input.captures :: c.Exited? && MeetsContract(c.observation, input.contract)
  {
    var (runs, failure) := Executed(input.captures);
    AllRunsWhenNoneFailed(input.captures);
    LegibleExactly(input.contract, failure.None?, runs, input.discriminating);
    hide Executed, GradeOf, MeetsContract;
    if failure.None? {
      assert forall i | 0 <= i < |runs| :: runs[i] in runs && input.captures[i] in input.captures;
    }
  }

  /** Status, cause and grade of an attempt agree with one another. */
  predicate Coherent(a: Attempt) {
    && (a.cause.CompletedSuccess? <==> a.status.CompletedAttempt? && a.grade.Some? && a.grade.value.result.GraderLegible?)
    && (a.cause.CompletedCapabilityMiss? <==> a.status.CompletedAttempt? && !a.cause.CompletedSuccess?)
    && (a.status.CompletedAttempt? ==> a.grade.Some? && !a.grade.value.result.InvalidExecution?)
    && (a.grade.Some? ==> (a.grade.value.failureStage.None? <==> a.grade.value.result.GraderLegible?))
  }

  lemma AttemptsAreCoherent(input: Input)
    ensures Coherent(AttemptOf(input))
  {
    hide Executed;
  }

  // ----- The summary of a condition -----

  datatype Summary = Summary(
    attempts: nat, completed: nat, graderLegible: nat,
    invalidSubmission: nat, integrityError: nat, infrastructureError: nat,
    causeCounts: map<Cause, nat>, failureStages: map<Stage, nat>)

  function Count(attempts: seq<Attempt>, p: Attempt -> bool): nat {
    |Filter(attempts, p)|
  }

  /** The counting loop over completed attempts. */
  function StageCounts(completed: seq<Attempt>): map<Stage, nat> {
    if completed == [] then map[]
    else
      var before := StageCounts(completed[..|completed| - 1]);
      var grade := completed[|completed| - 1].grade;
      if grade.None? || grade.value.failureStage.None? then before
      else
        var stage := grade.value.failureStage.value;
        before[stage := (if stage in before then before[stage] else 0) + 1]
  }

  function Total(counts: map<Stage, nat>): nat {
    At(counts, Infrastructure) + At(counts, NoDiscriminatingExperiment) + At(counts, NondeterministicOutput)
    + At(counts, ExitStatusMismatch) + At(counts, StdoutShapeMismatch) + At(counts, StderrSignalMissing)
  }

  function At(counts: map<Stage, nat>, stage: Stage): nat {
    if stage in counts then counts[stage] else 0
  }

  function HasCause(cause: Cause): Attempt -> bool {
    (a: Attempt) => a.cause == cause
  }

  function HasStatus(status: Status): Attempt -> bool {
    (a: Attempt) => a.status == status
  }

  function CauseCount(attempts: seq<Attempt>, cause: Cause): nat {
    Count(attempts, HasCause(cause))
  }

  function SumOfCauses(attempts: seq<Attempt>, causes: seq<Cause>): nat {
    if causes == [] then 0 else CauseCount(attempts, causes[0]) + SumOfCauses(attempts, causes[1..])
  }

  function IsOf(condition: nat): Attempt -> bool {
    (a: Attempt) => a.condition == condition
  }

  predicate IsCompleted(a: Attempt) {
    a.status.CompletedAttempt?
  }

  predicate IsLegible(a: Attempt) {
    a.grade.Some? && a.grade.value.result.GraderLegible?
  }

  function Summarize(condition: nat, attempts: seq<Attempt>): Summary {
    var mine := Filter(attempts, IsOf(condition));
    var completed := Filter(mine, IsCompleted);
    Summary(
      |mine|, |completed|, Count(completed, IsLegible),
      Count(mine, HasStatus(InvalidSubmission)),
      Count(mine, HasStatus(IntegrityError)),
      Count(mine, HasStatus(InfrastructureError)),
      map c: Cause | c in CAUSES :: CauseCount(mine, c),
      StageCounts(completed))
  }

  // ----- Nothing is lost or counted twice -----

  lemma CountOfOneMore(attempts: seq<Attempt>, a: Attempt, p: Attempt -> bool)
    ensures Count(attempts + [a], p) == Count(attempts, p) + (if p(a) then 1 else 0)
  {
    assert (attempts + [a])[..|attempts|] == attempts;
  }

  lemma {:induction false} CausesOfOneMore(attempts: seq<Attempt>, a: Attempt, causes: seq<Cause>)
    ensures SumOfCauses(attempts + [a], causes) == SumOfCauses(attempts, causes) + multiset(causes)[a.cause]
  {
    if causes != [] {
      CountOfOneMore(attempts, a, HasCause(causes[0]));
      CausesOfOneMore(attempts, a, causes[1..]);
      assert causes == [causes[0]] + causes[1..];
    }
  }

  lemma EachCauseOnce(c: Cause)
    ensures multiset(CAUSES)[c] == 1 && c in CAUSES
  {
    assert multiset(CAUSES) == multiset{
      AgentBudgetExhausted, AgentInvalidSubmission, AgentResourceLimit, ExternalBlock, HarnessOrEvaluator,
      InfrastructureCause, IsolationOrIntegrity, Unknown, CompletedCapabilityMiss, CompletedSuccess};
    assert c in multiset(CAUSES);
  }

  lemma {:induction false} NoCausesOfNothing(causes: seq<Cause>)
    ensures SumOfCauses([], causes) == 0
  {
    if causes != [] {
      NoCausesOfNothing(causes[1..]);
    }
  }

  lemma StageOfOneMore(completed: seq<Attempt>, a: Attempt)
    ensures var counted := a.grade.Some? && a.grade.value.failureStage.Some?;
            Total(StageCounts(completed + [a])) == Total(StageCounts(completed)) + (if counted then 1 else 0)
  {
    hide Total;
    assert (completed + [a])[..|completed|] == completed;
    if a.grade.Some? && a.grade.value.failureStage.Some? {
      StageAdded(StageCounts(completed), a.grade.value.failureStage.value);
    }
  }

  lemma StageAdded(counts: map<Stage, nat>, stage: Stage)
    ensures Total(counts[stage := At(counts, stage) + 1]) == Total(counts) + 1
  {
    match stage {
      case Infrastructure =>
      case NoDiscriminatingExperiment =>
      case NondeterministicOutput =>
      case ExitStatusMismatch =>
      case StdoutShapeMismatch =>
      case StderrSignalMissing =>
    }
  }

  lemma CompletedOfOneMore(attempts: seq<Attempt>, a: Attempt)
    ensures Filter(attempts + [a], IsCompleted) == Filter(attempts, IsCompleted) + (if IsCompleted(a) then [a] else [])
  {
    assert (attempts + [a])[..|attempts|] == attempts;
  }

  lemma {:induction false} StatusesAddUp(mine: seq<Attempt>)
    ensures |mine| == |Filter(mine, IsCompleted)| + Count(mine, HasStatus(InvalidSubmission))
                      + Count(mine, HasStatus(IntegrityError)) + Count(mine, HasStatus(InfrastructureError))
  {
    if mine != [] {
      var front, a := mine[..|mine| - 1], mine[|mine| - 1];
      StatusesAddUp(front);
      hide Filter;
      assert mine == front + [a];
      CountOfOneMore(front, a, HasStatus(InvalidSubmission));
      CountOfOneMore(front, a, HasStatus(IntegrityError));
      CountOfOneMore(front, a, HasStatus(InfrastructureError));
      CompletedOfOneMore(front, a);
    }
  }

  lemma {:induction false} CausesAddUp(mine: seq<Attempt>)
    ensures |mine| == SumOfCauses(mine, CAUSES)
  {
    if mine == [] {
      NoCausesOfNothing(CAUSES);
    } else {
      var front, a := mine[..|mine| - 1], mine[|mine| - 1];
      CausesAddUp(front);
      hide SumOfCauses;
      assert mine == front + [a];
      CausesOfOneMore(front, a, CAUSES);
      EachCauseOnce(a.cause);
    }
  }

  ghost predicate CompletedAddUp(mine: seq<Attempt>, completed: seq<Attempt>) {
    && CauseCount(mine, CompletedSuccess) == Count(completed, IsLegible)
    && CauseCount(mine, CompletedCapabilityMiss) == |completed| - Count(completed, IsLegible)
    && Total(StageCounts(completed)) == |completed| - Count(completed, IsLegible)
  }

  lemma CompletedStep(front: seq<Attempt>, completed: seq<Attempt>, a: Attempt)
    requires Coherent(a) && CompletedAddUp(front, completed)
    ensures CompletedAddUp(front + [a], completed + (if IsCompleted(a) then [a] else []))
  {
    hide Count, StageCounts, Total;
    CountOfOneMore(front, a, HasCause(CompletedSuccess));
    CountOfOneMore(front, a, HasCause(CompletedCapabilityMiss));
    if IsCompleted(a) {
      CountOfOneMore(completed, a, IsLegible);
      StageOfOneMore(completed, a);
    } else {
      assert completed + [] == completed;
    }
  }

  lemma {:induction false} CompletedAddsUp(mine: seq<Attempt>)
    requires forall a <- mine :: Coherent(a)
    ensures CompletedAddUp(mine, Filter(mine, IsCompleted))
  {
    if mine != [] {
      var front, a := mine[..|mine| - 1], mine[|mine| - 1];
      hide CompletedAddUp, Coherent, Filter;
      assert mine == front + [a];
      assert a in mine && forall x <- front :: x in mine;
      CompletedAddsUp(front);
      CompletedStep(front, Filter(front, IsCompleted), a);
      CompletedOfOneMore(front, a);
    }
  }

  /** The attempts of a condition, as the runner made them. */
  function AttemptsOf(inputs: seq<Input>): seq<Attempt> {
    Map(inputs, AttemptOf)
  }

  /**
   * The books balance, for any attempts the runner makes: every attempt of a condition is completed or in
   * exactly one of the three excluded classes, and has exactly one cause; the successes by cause are the
   * legible ones, and every completed attempt that is not legible has exactly one failure stage.
   */
  lemma SummaryAddsUp(condition: nat, inputs: seq<Input>)
    ensures var mine := Filter(AttemptsOf(inputs), IsOf(condition));
            var s := Summarize(condition, AttemptsOf(inputs));
            && s.attempts == s.completed + s.invalidSubmission + s.integrityError + s.infrastructureError
            && s.attempts == SumOfCauses(mine, CAUSES)
            && (forall c <- CAUSES :: c in s.causeCounts && s.causeCounts[c] == CauseCount(mine, c))
            && CompletedSuccess in s.causeCounts && s.causeCounts[CompletedSuccess] == s.graderLegible
            && Total(s.failureStages) == s.completed - s.graderLegible
  {
    var attempts := AttemptsOf(inputs);
    var mine := Filter(attempts, IsOf(condition));
    FilterMembers(attempts, IsOf(condition));
    forall a <- mine
      ensures Coherent(a)
    {
      assert a in attempts;
      var i: nat :| i < |attempts| && attempts[i] == a;
      MapAt(inputs, AttemptOf, i);
      AttemptsAreCoherent(inputs[i]);
    }
    EachCauseOnce(CompletedSuccess);
    hide Filter, StageCounts, Total, SumOfCauses, Coherent;
    StatusesAddUp(mine);
    CausesAddUp(mine);
    CompletedAddsUp(mine);
  }
}
