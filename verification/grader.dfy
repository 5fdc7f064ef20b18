/** The external grader: a verdict from raw channels, exit statuses and the fixture's own invocation log. */
module Grader {
  import opened Common
  import opened SessionLog

  datatype Observation = Observation(stdout: string, stderr: string, exitStatus: Option<int>)

  datatype Expectation = Ignored | Empty | ExactLines(lines: seq<string>) | ContainsLine(line: string)

  datatype Contract = Contract(exitStatus: int, stdout: Expectation, stderr: Expectation)

  datatype Channel = Stdout | Stderr

  datatype Diagnostic =
    | ExpectedNothing(channel: Channel)
    | WrongLineCount(channel: Channel)
    | WrongLine(channel: Channel, at: nat)
    | SignalMissing(channel: Channel)

  datatype Stage =
    | Infrastructure
    | NoDiscriminatingExperiment
    | NondeterministicOutput
    | ExitStatusMismatch
    | StdoutShapeMismatch
    | StderrSignalMissing

  datatype Verdict = GraderLegible | NotGraderLegible | InvalidExecution

  datatype Grade = Grade(result: Verdict, failureStage: Option<Stage>)

  /** A line ends at a newline, and takes the carriage return before it along. */
  function WithoutReturn(line: string): string {
    if line != "" && line[|line| - 1] == '\r' then line[..|line| - 1] else line
  }

  function StripAll(lines: seq<string>): (r: seq<string>)
    ensures |r| == |lines|
    ensures forall i | 0 <= i < |lines| :: r[i] == WithoutReturn(lines[i])
  {
    seq(|lines|, i requires 0 <= i < |lines| => WithoutReturn(lines[i]))
  }

  /** `raw.split(/\r?\n/)` without one final empty line. */
  function ChannelLines(raw: string): seq<string> {
    var cut := Lines(raw);
    var n := |cut| - 1;
    var split := StripAll(cut[..n]) + [cut[n]];
    if split[n] == "" then split[..n] else split
  }

  predicate Meets(raw: string, expectation: Expectation) {
    match expectation
    case Ignored => true
    case Empty => ChannelLines(raw) == []
    case ExactLines(lines) => ChannelLines(raw) == lines
    case ContainsLine(line) => line in ChannelLines(raw)
  }

  /** Every wrong line is reported, not only the first. */
  method MatchLines(channel: Channel, lines: seq<string>, expected: seq<string>, diagnostics: seq<Diagnostic>)
    returns (ok: bool, after: seq<Diagnostic>)
    requires |lines| == |expected|
    ensures ok <==> lines == expected
    ensures diagnostics <= after && (ok <==> after == diagnostics)
    ensures forall i: nat | i < |lines| && lines[i] != expected[i] :: WrongLine(channel, i) in after
  {
    ok, after := true, diagnostics;
    for i := 0 to |expected|
      invariant ok <==> forall k | 0 <= k < i :: lines[k] == expected[k]
      invariant diagnostics <= after && (ok <==> after == diagnostics)
      invariant forall k: nat | k < i && lines[k] != expected[k] :: WrongLine(channel, k) in after
    {
      if lines[i] != expected[i] {
        ok := false;
        after := after + [WrongLine(channel, i)];
      }
    }
  }

  /** The output matches exactly when nothing is added to the diagnostics. */
  method MatchChannel(channel: Channel, raw: string, expectation: Expectation, diagnostics: seq<Diagnostic>)
    returns (ok: bool, after: seq<Diagnostic>)
    ensures ok <==> Meets(raw, expectation)
    ensures diagnostics <= after && (ok <==> after == diagnostics)
  {
    hide ChannelLines;
    after := diagnostics;
    match expectation {
      case Ignored => ok := true;
      case Empty =>
        ok := |ChannelLines(raw)| == 0;
        if !ok {
          after := diagnostics + [ExpectedNothing(channel)];
        }
      case ExactLines(expected) =>
        var lines := ChannelLines(raw);
        if |lines| != |expected| {
          return false, diagnostics + [WrongLineCount(channel)];
        }
        ok, after := MatchLines(channel, lines, expected, diagnostics);
      case ContainsLine(line) =>
        ok := line in ChannelLines(raw);
        if !ok {
          after := diagnostics + [SignalMissing(channel)];
        }
    }
  }

  function RunsAgree(runs: seq<Observation>): bool {
    |runs| < 2 || forall run <- runs :: run == runs[0]
  }

  predicate MeetsContract(run: Observation, contract: Contract) {
    && run.exitStatus == Some(contract.exitStatus)
    && Meets(run.stdout, contract.stdout)
    && Meets(run.stderr, contract.stderr)
  }

  /** The stages in their order; the first that fails is the one reported. */
  function GradeOf(contract: Contract, valid: bool, runs: seq<Observation>, discriminating: bool): Grade {
    if !valid || runs == [] then Grade(InvalidExecution, Some(Infrastructure))
    else if !discriminating then Grade(NotGraderLegible, Some(NoDiscriminatingExperiment))
    else if !RunsAgree(runs) then Grade(NotGraderLegible, Some(NondeterministicOutput))
    else if runs[0].exitStatus != Some(contract.exitStatus) then Grade(NotGraderLegible, Some(ExitStatusMismatch))
    else if !Meets(runs[0].stdout, contract.stdout) then Grade(NotGraderLegible, Some(StdoutShapeMismatch))
    else if !Meets(runs[0].stderr, contract.stderr) then Grade(NotGraderLegible, Some(StderrSignalMissing))
    else Grade(GraderLegible, None)
  }

  method GradeSubmission(contract: Contract, valid: bool, runs: seq<Observation>, discriminating: bool)
    returns (grade: Grade, diagnostics: seq<Diagnostic>)
    ensures grade == GradeOf(contract, valid, runs, discriminating)
    ensures grade.result.GraderLegible? ==> diagnostics == []
  {
    if !valid || |runs| == 0 {
      return Grade(InvalidExecution, Some(Infrastructure)), [];
    }
    var deterministic := RunsAgree(runs);
    var observation := runs[0];
    var exitStatusMatched := observation.exitStatus == Some(contract.exitStatus);
    var stdoutMatched, stderrMatched;
    stdoutMatched, diagnostics := MatchChannel(Stdout, observation.stdout, contract.stdout, []);
    stderrMatched, diagnostics := MatchChannel(Stderr, observation.stderr, contract.stderr, diagnostics);
    grade :=
      if !discriminating then Grade(NotGraderLegible, Some(NoDiscriminatingExperiment))
      else if !deterministic then Grade(NotGraderLegible, Some(NondeterministicOutput))
      else if !exitStatusMatched then Grade(NotGraderLegible, Some(ExitStatusMismatch))
      else if !stdoutMatched then Grade(NotGraderLegible, Some(StdoutShapeMismatch))
      else if !stderrMatched then Grade(NotGraderLegible, Some(StderrSignalMissing))
      else Grade(GraderLegible, None);
  }

  /**
   * The pass mark, on all the runs although only the first is looked at: legible exactly when the execution
   * was valid, the discriminating experiment was run, all runs are identical, and EVERY run meets the contract.
   */
  lemma LegibleExactly(contract: Contract, valid: bool, runs: seq<Observation>, discriminating: bool)
    ensures GradeOf(contract, valid, runs, discriminating).result.GraderLegible? <==>
            && valid && discriminating && runs != []
            && (forall run <- runs :: run == runs[0])
            && forall run <- runs :: MeetsContract(run, contract)
  {
    hide Meets;
    if runs != [] {
      assert runs[0] in runs;
      if |runs| == 1 {
        assert forall run <- runs :: run == runs[0];
      }
    }
  }

  // ----- Reading a channel -----

  /** The text whose lines are `lines`, each ended by a newline. */
  function Printed(lines: seq<string>): string {
    if lines == [] then "" else lines[0] + "\n" + Printed(lines[1..])
  }

  lemma {:induction false} PrintedIsJoined(lines: seq<string>)
    ensures Printed(lines) == JoinLines(lines + [""])
  {
    if lines == [] {
      assert [] + [""] == [""];
    } else {
      PrintedIsJoined(lines[1..]);
      assert (lines + [""])[1..] == lines[1..] + [""] && (lines + [""])[0] == lines[0];
    }
  }

  lemma LinesOfPrinted(lines: seq<string>)
    requires forall l <- lines :: '\n' !in l
    ensures Lines(Printed(lines)) == lines + [""]
  {
    PrintedIsJoined(lines);
    LinesAreTheCut(Printed(lines), lines + [""]);
  }

  /** Lines that end in no carriage return come back from the text that prints them, interior empty ones included. */
  lemma ChannelRoundTrip(lines: seq<string>)
    requires forall l <- lines :: '\n' !in l && WithoutReturn(l) == l
    ensures ChannelLines(Printed(lines)) == lines
  {
    LinesOfPrinted(lines);
    var cut := lines + [""];
    assert cut[..|lines|] == lines;
    assert forall i | 0 <= i < |lines| :: lines[i] in lines;
    assert StripAll(lines) == lines;
    assert (lines + [""])[..|lines|] == lines;
  }
}
