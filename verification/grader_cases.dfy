/** Which submission gets which grade, and which text meets which expectation, case by case and for every input. */
module GraderCases {
  import opened Common
  import opened SessionLog
  import opened Grader

  // ----- What a channel's lines are -----

  /** A text: lines, each ended by a newline, some with a carriage return before it; then what follows the last newline. */
  function Written(lines: seq<string>, returns_: seq<bool>, rest: string): string
    requires |returns_| == |lines|
  {
    if lines == [] then rest
    else lines[0] + (if returns_[0] then "\r\n" else "\n") + Written(lines[1..], returns_[1..], rest)
  }

  /** No newline but the ends of lines, and no carriage return before one that is not part of the end. */
  predicate IsPlain(lines: seq<string>, returns_: seq<bool>, rest: string)
    requires |returns_| == |lines|
  {
    && (forall i | 0 <= i < |lines| :: '\n' !in lines[i])
    && (forall i | 0 <= i < |lines| :: returns_[i] || lines[i] == "" || lines[i][|lines[i]| - 1] != '\r')
    && '\n' !in rest
  }

  function WithReturns(lines: seq<string>, returns_: seq<bool>): (r: seq<string>)
    requires |returns_| == |lines|
    ensures |r| == |lines|
    ensures forall i | 0 <= i < |lines| :: r[i] == if returns_[i] then lines[i] + "\r" else lines[i]
  {
    seq(|lines|, i requires 0 <= i < |lines| => if returns_[i] then lines[i] + "\r" else lines[i])
  }

  lemma {:induction false} WrittenIsJoined(lines: seq<string>, returns_: seq<bool>, rest: string)
    requires |returns_| == |lines|
    ensures Written(lines, returns_, rest) == JoinLines(WithReturns(lines, returns_) + [rest])
  {
    var all := WithReturns(lines, returns_) + [rest];
    if lines != [] {
      WrittenIsJoined(lines[1..], returns_[1..], rest);
      assert all[1..] == WithReturns(lines[1..], returns_[1..]) + [rest];
      assert all[0] + "\n" == lines[0] + (if returns_[0] then "\r\n" else "\n");
    } else {
      assert all == [rest];
    }
  }

  lemma NoNewlines(lines: seq<string>, returns_: seq<bool>, rest: string)
    requires |returns_| == |lines| && IsPlain(lines, returns_, rest)
    ensures forall l <- WithReturns(lines, returns_) + [rest] :: '\n' !in l
  {
    var raw := WithReturns(lines, returns_);
    forall i | 0 <= i < |raw|
      ensures '\n' !in raw[i]
    {
      assert '\n' !in lines[i];
    }
  }

  lemma ReturnsAreStripped(lines: seq<string>, returns_: seq<bool>, rest: string)
    requires |returns_| == |lines| && IsPlain(lines, returns_, rest)
    ensures StripAll(WithReturns(lines, returns_)) == lines
  {
    var raw := WithReturns(lines, returns_);
    forall i | 0 <= i < |lines|
      ensures StripAll(raw)[i] == lines[i]
    {
      if returns_[i] {
        assert (lines[i] + "\r")[..|lines[i]|] == lines[i];
      }
    }
  }

  /** Reading gives exactly those lines, and what follows the last newline if there is anything. */
  lemma ChannelLinesExactly(lines: seq<string>, returns_: seq<bool>, rest: string)
    requires |returns_| == |lines| && IsPlain(lines, returns_, rest)
    ensures ChannelLines(Written(lines, returns_, rest)) == lines + (if rest == "" then [] else [rest])
  {
    var raw := WithReturns(lines, returns_);
    WrittenIsJoined(lines, returns_, rest);
    NoNewlines(lines, returns_, rest);
    LinesAreTheCut(Written(lines, returns_, rest), raw + [rest]);
    ReturnsAreStripped(lines, returns_, rest);
    hide Lines, Written, JoinLines, IsPlain, StripAll, WithReturns;
    assert (raw + [rest])[..|raw|] == raw;
    assert (lines + [rest])[..|lines|] == lines;
  }

  /** Every text whatever is written in that way. */
  lemma EveryTextIsWritten(text: string) returns (lines: seq<string>, returns_: seq<bool>, rest: string)
    ensures |returns_| == |lines| && IsPlain(lines, returns_, rest) && text == Written(lines, returns_, rest)
  {
    var cut := Lines(text);
    LinesAreTheCut(text, cut);
    hide Lines;
    var n := |cut| - 1;
    rest := cut[n];
    returns_ := seq(n, i requires 0 <= i < n => cut[i] != "" && cut[i][|cut[i]| - 1] == '\r');
    lines := seq(n, i requires 0 <= i < n => if returns_[i] then cut[i][..|cut[i]| - 1] else cut[i]);
    forall i | 0 <= i < n
      ensures WithReturns(lines, returns_)[i] == cut[i] && '\n' !in lines[i]
    {
      assert cut[i] in cut;
      if returns_[i] {
        assert cut[i] == cut[i][..|cut[i]| - 1] + "\r";
      }
    }
    assert WithReturns(lines, returns_) == cut[..n];
    assert cut[..n] + [rest] == cut;
    assert rest in cut;
    WrittenIsJoined(lines, returns_, rest);
  }

  /** Which expectations a text meets, by the lines it was written with. */
  lemma MeetsExactly(lines: seq<string>, returns_: seq<bool>, rest: string, e: Expectation)
    requires |returns_| == |lines| && IsPlain(lines, returns_, rest)
    ensures var text, all := Written(lines, returns_, rest), lines + (if rest == "" then [] else [rest]);
            && Meets(text, Ignored)
            && (Meets(text, Empty) <==> lines == [] && rest == "")
            && (e.ExactLines? ==> (Meets(text, e) <==> e.lines == all))
            && (e.ContainsLine? ==> (Meets(text, e) <==> exists k | 0 <= k < |all| :: all[k] == e.line))
  {
    ChannelLinesExactly(lines, returns_, rest);
    hide ChannelLines, Written;
  }

  // ----- Which grade -----

  ghost predicate Counts(valid: bool, runs: seq<Observation>) {
    valid && runs != []
  }

  ghost predicate Identical(runs: seq<Observation>) {
    forall i, k | 0 <= i < |runs| && 0 <= k < |runs| :: runs[i] == runs[k]
  }

  lemma AgreeIsIdentical(runs: seq<Observation>)
    ensures RunsAgree(runs) <==> Identical(runs)
  {
    if RunsAgree(runs) && |runs| >= 2 {
      forall i | 0 <= i < |runs|
        ensures runs[i] == runs[0]
      {
        assert runs[i] in runs;
      }
    }
  }

  /** Each failure stage, exactly: the first thing that is wrong, in the order of the stages. */
  lemma StagesExactly(contract: Contract, valid: bool, runs: seq<Observation>, discriminating: bool)
    ensures var stage := GradeOf(contract, valid, runs, discriminating).failureStage;
            && (stage == Some(Infrastructure) <==> !Counts(valid, runs))
            && (stage == Some(NoDiscriminatingExperiment) <==> Counts(valid, runs) && !discriminating)
            && (stage == Some(NondeterministicOutput) <==> Counts(valid, runs) && discriminating && !Identical(runs))
            && (stage == Some(ExitStatusMismatch) <==>
                  && Counts(valid, runs) && discriminating && Identical(runs)
                  && runs[0].exitStatus != Some(contract.exitStatus))
            && (stage == Some(StdoutShapeMismatch) <==>
                  && Counts(valid, runs) && discriminating && Identical(runs)
                  && runs[0].exitStatus == Some(contract.exitStatus) && !Meets(runs[0].stdout, contract.stdout))
            && (stage == Some(StderrSignalMissing) <==>
                  && Counts(valid, runs) && discriminating && Identical(runs)
                  && runs[0].exitStatus == Some(contract.exitStatus) && Meets(runs[0].stdout, contract.stdout)
                  && !Meets(runs[0].stderr, contract.stderr))
            && (stage == None <==>
                  && Counts(valid, runs) && discriminating && Identical(runs)
                  && runs[0].exitStatus == Some(contract.exitStatus) && Meets(runs[0].stdout, contract.stdout)
                  && Meets(runs[0].stderr, contract.stderr))
  {
    hide Meets, RunsAgree;
    AgreeIsIdentical(runs);
  }

  /** The verdict goes with the stage. */
  lemma VerdictsExactly(contract: Contract, valid: bool, runs: seq<Observation>, discriminating: bool)
    ensures var grade := GradeOf(contract, valid, runs, discriminating);
            && (grade.result.InvalidExecution? <==> grade.failureStage == Some(Infrastructure))
            && (grade.result.GraderLegible? <==> grade.failureStage == None)
  {
    hide Meets, RunsAgree;
  }
}
